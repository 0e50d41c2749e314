# Proposal assistant: chat route and agent routing, modelled in Dafny

This project models two pieces of a Next.js proposal assistant.

**The chat route** (`app/api/chat/route.ts`). `POST` checks three things in order:
1. the OpenAI API key is set;
2. the vector store id is set;
3. the request carries a message.

It then sends one generation request to the hosted model, with the file-search tool bound to the store. It answers with the model's text, which `stripMarkdown` cleans up. `stripMarkdown` applies eleven global regular-expression replacements and then `trim()`.

**The agent workflow** (`ai_agents.ts`). A classifier call returns JSON. The JSON's `classification` picks the system prompt for a second call.

The modules follow those files:

- `MarkdownSanitizer` (markdown.dfy) holds `stripMarkdown`. Each regular expression is a `Pattern`. `MatchAt` says what the JavaScript engine matches at the start of the text still to be scanned, with the backtracking worked out by hand. In every pattern, neighbouring character classes are disjoint, so each greedy run takes its longest extent and the lazy fence stops at the first closing fence. `Scan` is the `g` flag: matches go left to right, never overlap, and the scan resumes after each one. A flag tells `Scan` whether `^` matches at the current position.
- `JsString` (js_string.dfy) holds the ECMAScript pieces those patterns use:
  - the `\s` / `trim` whitespace set;
  - line terminators;
  - `\d`;
  - maximal runs;
  - `String.prototype.trim`.
- `ChatRoute` (chat_route.dfy) holds the guards and `POST`.
- `AiAgents` (ai_agents.dfy) holds the prompt switch, `classifyIntent`, `runSpecialtyAgent` and `runWorkflow`.
- `Json`, `Generation`, `Sequences` and `Wrappers` hold shared types:
  - JavaScript values and property reads;
  - the request and outcome of the generation service;
  - subsequences and erasure;
  - optional values and results.

Behaviour the model reproduces on purpose:

- **Not idempotent.** `stripMarkdown` removes one list marker per line start. So `"- - x"` becomes `"- x"`, and only a second application gives `"x"`. `MarkdownSanitizer.StripMarkdownNotIdempotent` proves this for any word `x`.
- **`^` after any line terminator.** Under the `m` flag, `^` matches at the start of the text and after every ECMAScript line terminator: `\n`, `\r`, U+2028 and U+2029. It is not only after `\n`.
- **`\s` crosses lines.** `\s` includes line terminators. So a line-start pass can swallow the line feeds that follow a marker, and the next line then starts inside the same match.
- **No fallback label.** `classifyIntent` has no fallback label:
  - text that is not JSON fails;
  - the JSON literal `null` fails on the property read;
  - a missing property gives `undefined`, which routes to the generic prompt;
  - any other value is passed on unchecked.

## Model

| member | source | states |
|---|---|---|
| MarkdownSanitizer.StripMarkdownSpec | app/api/chat/route.ts:7-21 | the sanitized text is obtained from the input by deleting characters only; every deleted character is whitespace, a digit or one of `` ` * _ # > - + . ``, so every other character survives in order; no three line feeds in a row; no whitespace at either end. Digits, `.`, `-` and `+` count as markup here everywhere in the text, although only a line-start list marker deletes them; the per-pattern lemmas below say where each is deleted |
| MarkdownSanitizer.StripMarkdown | app/api/chat/route.ts:7-21 | the result is never longer than the input |
| MarkdownSanitizer.ApplyPasses | app/api/chat/route.ts:8-18 | chaining passes in order yields a subsequence of the input, never longer |
| MarkdownSanitizer.Replace | app/api/chat/route.ts:9-19 | one global replacement, with `^` matching at the start of the text, yields a subsequence of its input, and erasing the characters the pattern may delete gives the same text before and after |
| MarkdownSanitizer.MatchAt | app/api/chat/route.ts:9-19 | a match consumes at least one character and is replaced by no more than it consumed; the four `^` patterns never match away from a line start |
| MarkdownSanitizer.FenceMatch | app/api/chat/route.ts:9 | a match starts with a fence and ends with the first fence after it (the lazy `[\s\S]*?`), spans at least six characters, and is replaced by `FenceReplacement` of the matched block; there is no match exactly when the text does not start with a fence or no fence follows the opening one |
| MarkdownSanitizer.FenceReplacement | app/api/chat/route.ts:9 | the replacement of a block is a subsequence of it that deletes only backticks and whitespace, and has no whitespace at either end |
| MarkdownSanitizer.DelimitedMatch | app/api/chat/route.ts:10-14 | a match is an opening delimiter, a non-empty run free of the delimiter character, and a closing delimiter, and the replacement is that run (`$1`) |
| MarkdownSanitizer.HeadingMatch | app/api/chat/route.ts:15 | the text matches iff it opens with `\s{0,3}#{1,6}\s+` (`HeadingShape`); the match is deleted and is that greedy reading, the only one the text admits |
| MarkdownSanitizer.QuoteMatch | app/api/chat/route.ts:16 | the text matches iff it opens with `\s{0,3}>\s?` (`QuoteShape`); the match is deleted and takes the optional whitespace character when there is one |
| MarkdownSanitizer.BulletMatch | app/api/chat/route.ts:17 | the text matches iff it opens with `\s*[-*+]\s+` (`BulletShape`); the match is deleted and takes the whole whitespace run after the marker |
| MarkdownSanitizer.NumberMatch | app/api/chat/route.ts:18 | the text matches iff it opens with `\s*\d+\.\s+` (`NumberShape`); the match is deleted and takes the whole whitespace run after the dot |
| MarkdownSanitizer.BlankLinesMatch | app/api/chat/route.ts:19 | there is a match exactly when the text starts with three line feeds; it takes the whole run of line feeds and is replaced by two |
| MarkdownSanitizer.StripMarkdownNotIdempotent | app/api/chat/route.ts:17 | for every non-empty word x, `"- - x"` strips to `"- x"` and `"- x"` to `"x"`, so stripping twice differs from stripping once |
| MarkdownSanitizer.Scan | app/api/chat/route.ts:8-19 | a global replacement never lengthens the text |
| MarkdownSanitizer.ScanDeletesOnly | app/api/chat/route.ts:8-19 | each pass yields a subsequence of its input and deletes only characters its pattern may delete |
| MarkdownSanitizer.MatchDeletesOnly | app/api/chat/route.ts:9-19 | each single match deletes only characters its pattern may delete |
| MarkdownSanitizer.PassKeepsVisibleText | app/api/chat/route.ts:8-19 | a pass that deletes only markup keeps the visible text |
| MarkdownSanitizer.ApplyPassesKeepsVisibleText | app/api/chat/route.ts:8-18 | the chain of removal passes keeps the visible text and only deletes |
| MarkdownSanitizer.RemovalPassesDeleteOnlyMarkup | app/api/chat/route.ts:9-18 | each of the ten removal passes deletes only markup characters or whitespace |
| MarkdownSanitizer.NextFence | app/api/chat/route.ts:9 | the lazy `[\s\S]*?` stops at a position where a fence starts, or at the end of the text |
| MarkdownSanitizer.NextFenceFirst | app/api/chat/route.ts:9 | no fence starts before the one the lazy match stops at: the match is the shortest |
| MarkdownSanitizer.NextFenceIs | app/api/chat/route.ts:9 | the first fence is determined by being a fence with none before it |
| MarkdownSanitizer.RemoveFenceMarks | app/api/chat/route.ts:9 | removing the fences never lengthens the block |
| MarkdownSanitizer.RemoveFenceMarksErases | app/api/chat/route.ts:9 | removing the fences deletes backticks only |
| MarkdownSanitizer.RemoveFenceMarksBeforeClosing | app/api/chat/route.ts:9 | a block whose only fence is the closing one loses exactly that fence |
| MarkdownSanitizer.FenceMatchesBlock | app/api/chat/route.ts:9 | an opening fence, text in which no fence starts before the closing one (so in particular it does not end in a backtick), and that closing fence are matched together and replaced by the trimmed text |
| MarkdownSanitizer.FencedBlockUnwrapped | app/api/chat/route.ts:9 | a fenced block becomes its trimmed inside, with an info string such as `js` kept, and the scan goes on after the closing fence |
| MarkdownSanitizer.FenceMatchDeletesOnly | app/api/chat/route.ts:9 | the fence replacement deletes only backticks and whitespace |
| MarkdownSanitizer.DelimitedMatchesWrapped | app/api/chat/route.ts:10-14 | the delimiter, non-empty text free of it, and the delimiter again form one match whose replacement is the text |
| MarkdownSanitizer.DelimitedUnwrapped | app/api/chat/route.ts:10-14 | inline code and the four emphasis forms are unwrapped to their text, and the scan goes on after the closing delimiter |
| MarkdownSanitizer.DelimitedMatchDeletesOnly | app/api/chat/route.ts:10-14 | unwrapping deletes only the delimiter character |
| MarkdownSanitizer.BoldBeforeItalic | app/api/chat/route.ts:11-12 | bold runs before italic, so `**x**` loses both pairs of asterisks |
| MarkdownSanitizer.HeadingMatchOf | app/api/chat/route.ts:15 | up to three whitespace characters, one to six `#` and at least one whitespace character are matched as one marker |
| MarkdownSanitizer.HeadingMarkerRemoved | app/api/chat/route.ts:15 | a heading marker at the start of a line is deleted, and the scan goes on with the heading text |
| MarkdownSanitizer.NotAHeading | app/api/chat/route.ts:15 | seven or more `#`, or `#` followed by no whitespace, is not matched |
| MarkdownSanitizer.HeadingMatchDeletesOnly | app/api/chat/route.ts:15 | the heading pass deletes only whitespace and `#` |
| MarkdownSanitizer.QuoteMatchOf | app/api/chat/route.ts:16 | up to three whitespace characters, `>` and at most one whitespace character are matched |
| MarkdownSanitizer.QuoteMarkerRemoved | app/api/chat/route.ts:16 | a quote marker at the start of a line is deleted along with one following whitespace character, if there is one |
| MarkdownSanitizer.QuoteMatchDeletesOnly | app/api/chat/route.ts:16 | the quote pass deletes only whitespace and `>` |
| MarkdownSanitizer.BulletMatchOf | app/api/chat/route.ts:17 | leading whitespace, one of `-*+` and at least one whitespace character are matched |
| MarkdownSanitizer.BulletMarkerRemoved | app/api/chat/route.ts:17 | a bullet marker at the start of a line is deleted, and the scan goes on after it |
| MarkdownSanitizer.BulletRemovesOneMarker | app/api/chat/route.ts:17 | within one line only the first bullet marker is deleted |
| MarkdownSanitizer.BulletMatchDeletesOnly | app/api/chat/route.ts:17 | the bullet pass deletes only whitespace and `-*+` |
| MarkdownSanitizer.NumberMatchOf | app/api/chat/route.ts:18 | leading whitespace, digits, `.` and at least one whitespace character are matched |
| MarkdownSanitizer.NumberMarkerRemoved | app/api/chat/route.ts:18 | a numbered-list marker at the start of a line is deleted, and the scan goes on after it |
| MarkdownSanitizer.NumberMatchDeletesOnly | app/api/chat/route.ts:18 | the number pass deletes only whitespace, digits and `.` |
| MarkdownSanitizer.UnmarkedLineKept | app/api/chat/route.ts:15-18 | a line whose start does not fit a line-start pattern passes through that pass unchanged, since `^` matches nowhere else in it |
| MarkdownSanitizer.DecimalLineKept | app/api/chat/route.ts:18 | a line opening with a decimal such as `3.14` keeps its digits and dot: a numbered item needs whitespace after the dot |
| MarkdownSanitizer.SignedLineKept | app/api/chat/route.ts:17 | a line opening with `-`, `*` or `+` directly followed by text, such as `-5`, is kept whole by the bullet pass |
| MarkdownSanitizer.IndentedLineKept | app/api/chat/route.ts:15-16 | a line indented by four or more whitespace characters is kept whole by the heading and quote passes |
| MarkdownSanitizer.LineStartExamples | app/api/chat/route.ts:15-18 | `3.14 is pi`, `-5 degrees`, `    # x` and `    > x` each come through their line-start pass unchanged |
| MarkdownSanitizer.AnchoredWithinLine | app/api/chat/route.ts:15-18 | away from a line start and within one line, the anchored passes change nothing |
| MarkdownSanitizer.UnanchoredScan | app/api/chat/route.ts:9-14 | the passes without `^` do not depend on what precedes the scanned text |
| MarkdownSanitizer.BlankRunCollapsed | app/api/chat/route.ts:19 | a run of three or more line feeds becomes exactly two |
| MarkdownSanitizer.CollapseNoTriple | app/api/chat/route.ts:19 | after the collapse pass, no three line feeds are adjacent |
| MarkdownSanitizer.CollapseFront | app/api/chat/route.ts:19 | text not starting with two line feeds does not come out starting with two |
| MarkdownSanitizer.BlankLinesMatchDeletesOnly | app/api/chat/route.ts:19 | the collapse deletes only line feeds |
| MarkdownSanitizer.NoTriggerNoMatch | app/api/chat/route.ts:9-19 | a pattern cannot match text that lacks its trigger characters |
| MarkdownSanitizer.PassWithoutMarkersIsIdentity | app/api/chat/route.ts:9-19 | a pass leaves alone text without its trigger characters |
| MarkdownSanitizer.BulletIsTheOnlyPass | app/api/chat/route.ts:8-20 | on a line of dashes, spaces and non-markup characters, `stripMarkdown` is the bullet pass followed by `trim` |
| MarkdownSanitizer.StripBulletedLine | app/api/chat/route.ts:17-20 | `"- "` followed by text that starts and ends with non-whitespace, has no line break, and holds only dashes, spaces and characters that are not markup (no digits, `.`, `+`, `*`, `_`, `#`, `>` or backticks) strips to that text |
| MarkdownSanitizer.ScanKeepsPrefix | app/api/chat/route.ts:9-14 | an unanchored pass copies a prefix that holds none of its trigger characters and scans on after it |
| MarkdownSanitizer.InlineCodeIsNoFence | app/api/chat/route.ts:9 | inline code around a word is not a fenced block: the fence pass keeps it |
| MarkdownSanitizer.BoldAndCode | app/api/chat/route.ts:7-21 | for any two non-empty words a and b, `"**" + a + "** and `" + b + "`"` strips to `a + " and " + b` |
| MarkdownSanitizer.BoldAndCodeExample | app/api/chat/route.ts:7-21 | `"**bold** and `code`"` strips to `"bold and code"` |
| JsString.Trim | app/api/chat/route.ts:20 | trimming never lengthens the text |
| JsString.TrimmedEnds | app/api/chat/route.ts:20 | trimmed text starts and ends with non-whitespace, or is empty |
| JsString.TrimOfPadded | app/api/chat/route.ts:20 | trimming whitespace-padded text gives back the unpadded text |
| JsString.TrimDeletesOnlySpaces | app/api/chat/route.ts:20 | trimming deletes only whitespace |
| JsString.SpanMaximal | app/api/chat/route.ts:15-18 | a greedy run covers only characters of its class and stops before one outside it |
| JsString.Span | app/api/chat/route.ts:15-18 | a greedy run starting at i ends between i and the end of the text |
| JsString.LineTerminatorIsSpace | app/api/chat/route.ts:15-18 | every line terminator (where `^` matches under `m`) is also matched by `\s` |
| JsString.SpaceIsNoMarker | app/api/chat/route.ts:15-18 | no whitespace character is a digit or a marker character, so each greedy `\s` run ends where the marker begins |
| Json.OptionalMember | app/api/chat/route.ts:42 | `v?.name` is defined exactly when v is an object holding the name, and is then that field |
| Json.Member | ai_agents.ts:41 | `v.name` throws exactly on `null`, and otherwise agrees with `v?.name` |
| ChatRoute.IsConfigured | app/api/chat/route.ts:25-39 | an environment variable passes `!value` exactly when it is set and not empty |
| ChatRoute.ParsedBody | app/api/chat/route.ts:41 | the body is read as `{}` exactly when it is not JSON or is `{}`, and otherwise as the JSON it holds |
| ChatRoute.AcceptedMessage | app/api/chat/route.ts:41-49 | the message is accepted exactly when `body?.message` is a string other than `""` |
| ChatRoute.CheckRequest | app/api/chat/route.ts:25-49 | the guards run in order: missing key gives 500, missing store id gives 500, a bad message gives 400; otherwise the request proceeds with the store id and the message |
| ChatRoute.ChatRequest | app/api/chat/route.ts:68-80 | the request names gpt-4o-mini and has exactly one file-search tool, bound to the single store id; the system turn carries the trimmed system prompt and comes before the user turn, which carries the message |
| ChatRoute.Post | app/api/chat/route.ts:23-92 | status 200 exactly when a reply is given, which is exactly when the guards pass and the call completes; every other answer is 400 or 500 |
| ChatRoute.RejectedBeforeService | app/api/chat/route.ts:25-52 | a rejected request gets its guard's status and error, and the service is never asked |
| ChatRoute.OnlyChatRequestSent | app/api/chat/route.ts:52-80 | the response depends on the service only through its answer to the chat request |
| ChatRoute.KeyCheckedFirst | app/api/chat/route.ts:25-31 | a missing or empty API key gives 500 "Missing OPENAI_API_KEY env var", whatever else the request holds |
| ChatRoute.StoreCheckedBeforeMessage | app/api/chat/route.ts:33-39 | once the key is present, a missing or empty store id gives 500 "Missing VECTOR_STORE_ID env var", whatever the body holds |
| ChatRoute.UnreadableBodyIsEmptyObject | app/api/chat/route.ts:41 | a body that is not JSON is answered as `{}` is, with 400 once configured |
| ChatRoute.BadMessagesRejected | app/api/chat/route.ts:42-49 | a non-string or empty message, or a `null` body, gives 400 "Missing message" |
| ChatRoute.WhitespaceMessageAccepted | app/api/chat/route.ts:44 | a message of whitespace only is accepted |
| ChatRoute.CompletedReply | app/api/chat/route.ts:82-85 | a completed call gives 200 and `stripMarkdown(output_text ?? "")`: the reply is `StripMarkdown` of that text, a subsequence of it that keeps its visible text, has no triple line feed and no whitespace at either end; a missing output gives `""` |
| ChatRoute.FailedCall | app/api/chat/route.ts:86-90 | a call that throws gives 500 "Chat failed" with the error's details |
| AiAgents.SystemPromptFor | ai_agents.ts:53-81 | the prompt is never empty; it is the generic prompt exactly when the value is not one of the five label strings, and a specialty prompt otherwise |
| AiAgents.SwitchFollowsTable | ai_agents.ts:53-78 | each label selects the prompt paired with it |
| AiAgents.PromptsDistinct | ai_agents.ts:55-80 | the six prompts are non-empty and pairwise distinct |
| AiAgents.RoutingIsInjective | ai_agents.ts:53-78 | two labels routed to the same prompt are the same label |
| AiAgents.ListedValuesOfBulletList | ai_agents.ts:22-27 | a list written one `- value` line per value reads back as the same values, whatever text not starting with `-` follows it |
| AiAgents.ClassifierListsTheLabels | ai_agents.ts:19-31 | reading the `- value` lines of the classifier instruction after its preamble gives exactly the five labels; a string is listed exactly when the switch selects a specialty prompt for it |
| AiAgents.ClassifierText | ai_agents.ts:40 | the text handed to `JSON.parse` is the output text when there is one, and `"{}"` otherwise |
| AiAgents.ClassifierRequest | ai_agents.ts:14-38 | the classifier request names gpt-4.1-mini, has no tools, and sends the instruction and then the user input |
| AiAgents.AgentRequest | ai_agents.ts:83-89 | the agent request names gpt-4.1, has no tools, and sends the selected prompt and then the user input |
| AiAgents.ClassifyIntent | ai_agents.ts:13-42 | a failed call fails; otherwise the result is the `classification` property of the parsed `output_text ?? "{}"`, and it fails exactly when the text is not JSON or is `null` |
| AiAgents.RunSpecialtyAgent | ai_agents.ts:47-92 | the answer is `output_text ?? "No response generated."`, and a failed call fails |
| AiAgents.RunWorkflow | ai_agents.ts:98-110 | the workflow succeeds exactly when both calls succeed; a classification failure, or else an agent failure, ends it with that failure; a result carries the classification unchanged and the agent's answer for that classification and the same input |
| AiAgents.WorkflowSendsTwoRequests | ai_agents.ts:98-103 | the result depends only on the classifier request and on the agent request with the same input |
| AiAgents.ClassificationPassedThrough | ai_agents.ts:41 | whatever value `classification` holds is returned unchecked, with no fallback label |
| AiAgents.NonJsonFails | ai_agents.ts:41 | classifier text that is not JSON ends the workflow with the parse error |
| AiAgents.NullJsonFails | ai_agents.ts:41 | classifier text `null` ends the workflow on the property read |
| AiAgents.MissingOutputRoutesToGeneric | ai_agents.ts:40-41 | a missing classifier output reads as `{}`, gives `undefined`, and routes to the generic prompt |
| AiAgents.MissingAnswerDefaults | ai_agents.ts:91 | a missing agent output gives "No response generated." |

## Left out

- MarkdownSanitizer.StripMarkdownSpec: its visible text leaves out every digit, `.`, `-` and `+`, wherever they stand, because some pass deletes each of them in some position. So it does not by itself promise that such characters survive outside a line-start list marker. That finer promise is made pass by pass: `NumberMatch` and `BulletMatch` match exactly the line-start marker shapes, `AnchoredWithinLine` keeps the rest of a line once the scan is past that line's start (a marker preceded by whitespace at the start of a line, as in `  # x`, is still deleted), and `DecimalLineKept` and `SignedLineKept` keep a line opening with `3.14` or `-5`. The worked lemmas `BoldAndCode` and `StripBulletedLine` follow whole texts through the pipeline.
- The OpenAI client and `responses.create` (app/api/chat/route.ts:52, 68; ai_agents.ts:6-8, 14, 83) call a network service. They are a parameter: a function from the request to the outcome of awaiting it.
  - Because it is a function, the same request always gets the same outcome.
  - The model does not cover retries, timing, or two calls with the same request getting different outcomes.
- `JSON.parse` (ai_agents.ts:41) is a parameter that returns a value or a syntax error. No JSON parser is modelled.
- `req.json()` (app/api/chat/route.ts:41) is modelled as its outcome: a JSON value, or a body that is not JSON.
- The error details `err?.message ?? String(err)` (app/api/chat/route.ts:88) are the string a failed outcome carries. How JavaScript converts a thrown value to text is not modelled.
- `NextResponse.json` (app/api/chat/route.ts:27-89) is modelled as a status and a body datatype. JSON serialisation is left out, and the `ok` field is implied by the variant.
- Environment variables (app/api/chat/route.ts:25, 33) are parameters. `process.env` is not read.
- JavaScript strings are UTF-16 code units; the model's strings are sequences of code points. Text with characters outside the Basic Multilingual Plane is therefore not modelled unit by unit.
- Only the line-start passes (app/api/chat/route.ts:15-18) read the text before the current position, and only through the question of whether `^` matches. The scan carries that one bit rather than the whole prefix.
- `as string` (ai_agents.ts:41) is a compile-time cast with no run-time effect. The classification keeps whatever type the JSON gave it.
- `export const runtime` (app/api/chat/route.ts:4) is deployment configuration.
- app/page.tsx, app/layout.tsx, app/api/upload/route.ts, app/api/chatkit/session/route.ts and app/api/chatkit/debug/route.ts are not part of this model. They are UI markup and state, or pass-through proxies and environment introspection.
- The following have no code in the two files modelled here, so they are not modelled:
  - citation extraction;
  - file validation;
  - upload batching and indexing polls;
  - a fallback classification label.

/**
 * The two-stage agent workflow: a classifier call whose JSON answer names an intent,
 * then a specialty call whose system prompt the intent selects.
 *
 * The text-generation service and `JSON.parse` are parameters: the service maps the
 * request it is sent to the outcome of awaiting it, and `parse` maps a text to a JSON
 * value or a syntax error. A thrown error is an `Err` that ends the workflow.
 */
module AiAgents {
  import opened Wrappers
  import opened Json
  import opened Generation

  /** The five intents, in the order the classifier instruction lists them. */
  const Labels: seq<string> :=
    ["pricing_cost", "corporate_admin", "key_personnel_staffing", "management_technical", "past_performance"]

  const PricingPrompt := "You are a Pricing & Cost expert for government proposals."
  const CorporatePrompt := "You are a Corporate & Administrative data expert for proposals."
  const PersonnelPrompt := "You are a Key Personnel & Staffing expert for proposals."
  const TechnicalPrompt := "You are a Management & Technical Approach expert for DOT contracts."
  const PastPerformancePrompt := "You are a Past Performance expert for government proposals."

  /** The prompt of the `default` branch. */
  const GenericPrompt := "You are a helpful proposal assistant."

  /** The specialty prompts, in the order of `Labels`. */
  const SpecialtyPrompts: seq<string> :=
    [PricingPrompt, CorporatePrompt, PersonnelPrompt, TechnicalPrompt, PastPerformancePrompt]

  const NoResponse := "No response generated."

  const ClassifierModel := "gpt-4.1-mini"
  const AgentModel := "gpt-4.1"

  /** The classification is one of the five intent strings (the `switch` compares with `===`). */
  predicate IsLabel(classification: Property) {
    classification.Defined? && classification.value.JString? && classification.value.s in Labels
  }

  /**
   * The `switch` of `runSpecialtyAgent`: each intent string selects its own prompt, and
   * every other value (another string, a number, `undefined`, ...) the generic one.
   */
  function SystemPromptFor(classification: Property): (prompt: string)
    ensures prompt != []
    ensures prompt == GenericPrompt <==> !IsLabel(classification)
    ensures IsLabel(classification) ==> prompt in SpecialtyPrompts
  {
    match classification
    case Defined(JString(s)) =>
      if s == "pricing_cost" then PricingPrompt
      else if s == "corporate_admin" then CorporatePrompt
      else if s == "key_personnel_staffing" then PersonnelPrompt
      else if s == "management_technical" then TechnicalPrompt
      else if s == "past_performance" then PastPerformancePrompt
      else GenericPrompt
    case _ => GenericPrompt
  }

  /** The `switch` agrees with the table pairing each label with its prompt. */
  lemma SwitchFollowsTable(i: nat)
    requires i < |Labels|
    ensures SystemPromptFor(Defined(JString(Labels[i]))) == SpecialtyPrompts[i]
  {
  }

  /** The six prompts are non-empty and pairwise distinct. */
  lemma PromptsDistinct()
    ensures forall i, j :: 0 <= i < j < |SpecialtyPrompts| ==> SpecialtyPrompts[i] != SpecialtyPrompts[j]
    ensures forall i :: 0 <= i < |SpecialtyPrompts| ==> SpecialtyPrompts[i] != []
    ensures GenericPrompt != [] && GenericPrompt !in SpecialtyPrompts
  {
    // the six prompts differ already in length
    assert |PricingPrompt| == 57 && |CorporatePrompt| == 63 && |PersonnelPrompt| == 56;
    assert |TechnicalPrompt| == 67 && |PastPerformancePrompt| == 59 && |GenericPrompt| == 37;
  }

  /** Different intents are routed to different prompts, so the prompt identifies the intent. */
  lemma RoutingIsInjective(a: Property, b: Property)
    requires IsLabel(a) && IsLabel(b) && SystemPromptFor(a) == SystemPromptFor(b)
    ensures a == b
  {
    PromptsDistinct();
    var i :| 0 <= i < |Labels| && Labels[i] == a.value.s;
    var j :| 0 <= j < |Labels| && Labels[j] == b.value.s;
    SwitchFollowsTable(i);
    SwitchFollowsTable(j);
    assert SpecialtyPrompts[i] == SpecialtyPrompts[j];
    assert i == j;
  }

  /** One line per value: `- value` and a line feed. */
  function BulletList(values: seq<string>): string
  {
    if values == [] then "" else "- " + values[0] + "\n" + BulletList(values[1..])
  }

  /** The values listed by a text of `- value` lines: the inverse of `BulletList`. */
  function ListedValues(text: string): seq<string>
    decreases |text|
  {
    if |text| < 2 || text[..2] != "- " then []
    else
      var end := LineEnd(text, 2);
      if end == |text| then [text[2..]] else [text[2..end]] + ListedValues(text[end + 1..])
  }

  /** The index of the first line feed at or after `i`, or the length when there is none. */
  function LineEnd(text: string, i: nat): (j: nat)
    requires i <= |text|
    ensures i <= j <= |text| && (j < |text| ==> text[j] == '\n')
    ensures forall k :: i <= k < j ==> text[k] != '\n'
    decreases |text| - i
  {
    if i == |text| || text[i] == '\n' then i else LineEnd(text, i + 1)
  }

  /** A value fits on one line of the list. */
  predicate SingleLine(v: string) {
    forall k :: 0 <= k < |v| ==> v[k] != '\n'
  }

  /** Reading a `- v` line gives `v`, then the values listed after it. */
  lemma ListedValuesCons(v: string, rest: string)
    requires SingleLine(v)
    ensures ListedValues("- " + v + "\n" + rest) == [v] + ListedValues(rest)
  {
    var text := "- " + v + "\n" + rest;
    assert text[..2] == "- ";
    LineEndIs(text, 2, 2 + |v|);
    assert text[2..2 + |v|] == v;
    assert text[3 + |v|..] == rest;
  }

  /**
   * Listing values one per line and reading them back gives the same values, whatever
   * follows the list as long as it does not start with `-`.
   */
  lemma {:induction false} ListedValuesOfBulletList(values: seq<string>, after: string)
    requires forall i :: 0 <= i < |values| ==> SingleLine(values[i])
    requires after == [] || after[0] != '-'
    ensures ListedValues(BulletList(values) + after) == values
    decreases |values|
  {
    if values == [] {
      assert BulletList(values) + after == after;
      if |after| >= 2 {
        assert after[..2][0] == after[0];
      }
    } else {
      var rest := BulletList(values[1..]) + after;
      BulletListCons(values, after);
      ListedValuesCons(values[0], rest);
      ListedValuesOfBulletList(values[1..], after);
      assert [values[0]] + values[1..] == values;
    }
  }

  lemma BulletListCons(values: seq<string>, after: string)
    requires values != []
    ensures BulletList(values) + after == "- " + values[0] + "\n" + (BulletList(values[1..]) + after)
  {
  }

  lemma LineEndIs(text: string, i: nat, j: nat)
    requires i <= j < |text| && text[j] == '\n'
    requires forall k :: i <= k < j ==> text[k] != '\n'
    ensures LineEnd(text, i) == j
    decreases j - i
  {
    if i < j {
      LineEndIs(text, i + 1, j);
    }
  }

  /** The classifier instruction up to its list of values. */
  const ClassifierPreamble: string :=
    "\nYou are a classification agent.\n\nClassify the user's request into ONE of the following values:\n"

  /** The classifier instruction after its list of values. */
  const ClassifierReturnRule: string :=
    "\n" + "Return ONLY valid JSON:\n{ \"classification\": \"<value>\" }\n"

  /** The classifier's system instruction: the preamble, one `- label` line per intent, the return rule. */
  const ClassifierInstruction: string := ClassifierPreamble + BulletList(Labels) + ClassifierReturnRule

  /**
   * Reading the `- value` lines of the instruction after its preamble gives exactly the
   * intents the `switch` handles: each listed value selects a specialty prompt, and no
   * other string does.
   */
  lemma ClassifierListsTheLabels()
    ensures ListedValues(ClassifierInstruction[|ClassifierPreamble|..]) == Labels
    ensures forall v :: v in ListedValues(ClassifierInstruction[|ClassifierPreamble|..]) <==>
      SystemPromptFor(Defined(JString(v))) != GenericPrompt
  {
    forall i | 0 <= i < |Labels| ensures SingleLine(Labels[i]) { }
    assert ClassifierReturnRule[0] == '\n';
    assert ClassifierInstruction[|ClassifierPreamble|..] == BulletList(Labels) + ClassifierReturnRule;
    ListedValuesOfBulletList(Labels, ClassifierReturnRule);
  }

  function ClassifierRequest(userInput: string): (r: ModelRequest)
    ensures r.model == ClassifierModel && r.tools == []
    ensures r.input == [Turn(System, ClassifierInstruction), Turn(User, userInput)]
  {
    ModelRequest(ClassifierModel, [], [Turn(System, ClassifierInstruction), Turn(User, userInput)])
  }

  function AgentRequest(classification: Property, userInput: string): (r: ModelRequest)
    ensures r.model == AgentModel && r.tools == []
    ensures r.input == [Turn(System, SystemPromptFor(classification)), Turn(User, userInput)]
  {
    ModelRequest(AgentModel, [], [Turn(System, SystemPromptFor(classification)), Turn(User, userInput)])
  }

  /** What `JSON.parse` gives: a value, or a thrown SyntaxError. */
  datatype ParseResult = SyntaxError | Parsed(value: Json)

  /** The error that ends the workflow. */
  datatype Failure =
    | UpstreamFailed(details: string) // the service call threw
    | JsonSyntaxError                 // the classifier's text is not JSON
    | NullPropertyRead                // the text is `null`, and `.classification` of null throws

  /** `response.output_text ?? "{}"`: the text handed to `JSON.parse`. */
  function ClassifierText(outputText: Option<string>): (r: string)
    ensures outputText.Some? ==> r == outputText.value
    ensures outputText.None? ==> r == "{}"
  {
    outputText.GetOr("{}")
  }

  /**
   * `classifyIntent`: the `classification` property of whatever the classifier's text
   * parses to, passed on unchecked (`as string` is a compile-time cast).
   */
  function ClassifyIntent(userInput: string, service: ModelRequest -> Outcome,
                          parse: string -> ParseResult): (r: Result<Property, Failure>)
    ensures service(ClassifierRequest(userInput)).Failed? ==>
      r == Err(UpstreamFailed(service(ClassifierRequest(userInput)).details))
    ensures r.Ok? <==>
      (service(ClassifierRequest(userInput)).Completed?
       && parse(ClassifierText(service(ClassifierRequest(userInput)).outputText)).Parsed?
       && !parse(ClassifierText(service(ClassifierRequest(userInput)).outputText)).value.JNull?)
    ensures r.Ok? ==>
      r.value == OptionalMember(parse(ClassifierText(service(ClassifierRequest(userInput)).outputText)).value,
                                "classification")
  {
    match service(ClassifierRequest(userInput))
    case Failed(details) => Err(UpstreamFailed(details))
    case Completed(outputText) =>
      match parse(ClassifierText(outputText))
      case SyntaxError => Err(JsonSyntaxError)
      case Parsed(v) =>
        match Member(v, "classification")
        case None => Err(NullPropertyRead)
        case Some(p) => Ok(p)
  }

  /** `runSpecialtyAgent`: the answer is the output text, or "No response generated." without one. */
  function RunSpecialtyAgent(classification: Property, userInput: string,
                             service: ModelRequest -> Outcome): (r: Result<string, Failure>)
    ensures r.Ok? <==> service(AgentRequest(classification, userInput)).Completed?
    ensures r.Ok? ==> r.value == service(AgentRequest(classification, userInput)).outputText.GetOr(NoResponse)
    ensures r.Err? ==> r.error == UpstreamFailed(service(AgentRequest(classification, userInput)).details)
  {
    match service(AgentRequest(classification, userInput))
    case Failed(details) => Err(UpstreamFailed(details))
    case Completed(outputText) => Ok(outputText.GetOr(NoResponse))
  }

  /** What `runWorkflow` resolves to. */
  datatype WorkflowResult = WorkflowResult(classification: Property, answer: string)

  /** `runWorkflow`: classify, then answer with the prompt the classification selects. */
  function RunWorkflow(userInput: string, service: ModelRequest -> Outcome,
                       parse: string -> ParseResult): (r: Result<WorkflowResult, Failure>)
    ensures ClassifyIntent(userInput, service, parse).Err? ==> r == Err(ClassifyIntent(userInput, service, parse).error)
    ensures r.Ok? ==> ClassifyIntent(userInput, service, parse) == Ok(r.value.classification)
    ensures r.Ok? ==> RunSpecialtyAgent(r.value.classification, userInput, service) == Ok(r.value.answer)
    ensures r.Ok? <==>
      (ClassifyIntent(userInput, service, parse).Ok?
       && RunSpecialtyAgent(ClassifyIntent(userInput, service, parse).value, userInput, service).Ok?)
    ensures ClassifyIntent(userInput, service, parse).Ok? ==>
      var a := RunSpecialtyAgent(ClassifyIntent(userInput, service, parse).value, userInput, service);
      a.Err? ==> r == Err(a.error)
  {
    match ClassifyIntent(userInput, service, parse)
    case Err(e) => Err(e)
    case Ok(classification) =>
      match RunSpecialtyAgent(classification, userInput, service)
      case Err(e) => Err(e)
      case Ok(answer) => Ok(WorkflowResult(classification, answer))
  }

  /**
   * The workflow sends two requests, both with the caller's input: the classifier's, then
   * the agent's with the prompt the classification selects. A service that answers those
   * two the same way gives the same result.
   */
  lemma WorkflowSendsTwoRequests(userInput: string, service: ModelRequest -> Outcome,
                                 other: ModelRequest -> Outcome, parse: string -> ParseResult)
    requires service(ClassifierRequest(userInput)) == other(ClassifierRequest(userInput))
    requires ClassifyIntent(userInput, service, parse).Ok? ==>
      var c := ClassifyIntent(userInput, service, parse).value;
      service(AgentRequest(c, userInput)) == other(AgentRequest(c, userInput))
    ensures RunWorkflow(userInput, service, parse) == RunWorkflow(userInput, other, parse)
  {
  }

  /** Whatever the parsed object's `classification` holds is returned as is: there is no fallback label. */
  lemma ClassificationPassedThrough(userInput: string, service: ModelRequest -> Outcome,
                                    parse: string -> ParseResult, text: string, value: Json)
    requires service(ClassifierRequest(userInput)) == Completed(Some(text))
    requires parse(text) == Parsed(JObject(map["classification" := value]))
    ensures ClassifyIntent(userInput, service, parse) == Ok(Defined(value))
    ensures RunWorkflow(userInput, service, parse).Ok? ==>
      RunWorkflow(userInput, service, parse).value.classification == Defined(value)
  {
  }

  /** Text that is not JSON ends the workflow with the parse error, before the agent is asked. */
  lemma NonJsonFails(userInput: string, service: ModelRequest -> Outcome,
                     parse: string -> ParseResult, text: string)
    requires service(ClassifierRequest(userInput)) == Completed(Some(text))
    requires parse(text) == SyntaxError
    ensures RunWorkflow(userInput, service, parse) == Err(JsonSyntaxError)
  {
  }

  /** A classifier's text of `null` throws on the property read. */
  lemma NullJsonFails(userInput: string, service: ModelRequest -> Outcome,
                      parse: string -> ParseResult, text: string)
    requires service(ClassifierRequest(userInput)) == Completed(Some(text))
    requires parse(text) == Parsed(JNull)
    ensures RunWorkflow(userInput, service, parse) == Err(NullPropertyRead)
  {
  }

  /**
   * A classifier response without output text is read as `{}`, so the classification is
   * `undefined` and the agent is asked with the generic prompt.
   */
  lemma MissingOutputRoutesToGeneric(userInput: string, service: ModelRequest -> Outcome,
                                     parse: string -> ParseResult)
    requires service(ClassifierRequest(userInput)) == Completed(None)
    requires parse("{}") == Parsed(JObject(map[]))
    ensures ClassifyIntent(userInput, service, parse) == Ok(Undefined)
    ensures AgentRequest(Undefined, userInput).input[0] == Turn(System, GenericPrompt)
  {
  }

  /** An agent response without output text gives the answer "No response generated.". */
  lemma MissingAnswerDefaults(classification: Property, userInput: string, service: ModelRequest -> Outcome)
    requires service(AgentRequest(classification, userInput)) == Completed(None)
    ensures RunSpecialtyAgent(classification, userInput, service) == Ok(NoResponse)
  {
  }
}

/** The response synthesiser of `analyzePrompt`. A blocked request is refused
    with the reply of its category; any other request is answered with one
    of five canned replies, chosen by the first keyword test that succeeds on
    the lower-cased prompt. `Choose` decides which reply is given, `Render`
    writes it out, and `Synthesize` is the switch and if/else chain of the
    source, proved to produce `Render(Choose(..))`. */
module ResponseSynthesizer {
  import opened Common
  import opened Text
  import opened PolicyEngine

  /** The replies to a blocked request, with the reason the warnings quote. */
  datatype Refusal =
    | XssWarning(reason: Option<string>)
    | HarmfulRefusal
    | PiiRefusal
    | JailbreakRefusal
    | PolicyWarning(reason: Option<string>)
    | SafetyRefusal(reason: Option<string>)

  /** The replies to any other request. */
  datatype Answer =
    | Greeting
    | WeatherReport
    | Story
    | StructuredData(dataType: string)
    | Echo(prompt: string)

  datatype Reply = Refused(refusal: Refusal) | Answered(answer: Answer)

  // ---- choosing the reply ----

  /** The `switch (detectedCategory)` of a blocked request; a verdict
      without a category falls to the `default` arm. */
  function RefusalFor(category: Option<Category>, reason: Option<string>): Refusal {
    match category
    case Some(XssPayload) => XssWarning(reason)
    case Some(Harmful) => HarmfulRefusal
    case Some(PII) => PiiRefusal
    case Some(JailbreakAttempt) => JailbreakRefusal
    case Some(PolicyViolation) => PolicyWarning(reason)
    case None => SafetyRefusal(reason)
  }

  /** What the keyword tests on an unblocked request look for. */
  datatype Topic = SmallTalk | Weather | Storytelling | StructuredInput

  /** A topic and the keywords, any of which selects it. */
  datatype TopicRule = TopicRule(keywords: seq<string>, topic: Topic)

  /** The keyword tests on the lower-cased prompt, in the order they are
      tried; a prompt that passes none is echoed. */
  const TopicRules: seq<TopicRule> := [
    TopicRule(["how are you"], SmallTalk),
    TopicRule(["weather"], Weather),
    TopicRule(["tell me a story"], Storytelling),
    TopicRule(["json", "html"], StructuredInput)
  ]

  /** The topic of the first rule in `rules` with a keyword in `lower`. */
  function FirstTopic(rules: seq<TopicRule>, lower: string): Option<Topic> {
    if rules == [] then None
    else if IncludesAny(lower, rules[0].keywords) then Some(rules[0].topic)
    else FirstTopic(rules[1..], lower)
  }

  function ChooseTopic(lower: string): Option<Topic> {
    FirstTopic(TopicRules, lower)
  }

  /** The `data_type_inferred` field: `json` wins over `html`. */
  function InferredDataType(lower: string): string {
    if Includes(lower, "json") then "json" else "html"
  }

  function AnswerFor(prompt: string): Answer {
    var lower := Lower(prompt);
    match ChooseTopic(lower)
    case None => Echo(prompt)
    case Some(SmallTalk) => Greeting
    case Some(Weather) => WeatherReport
    case Some(Storytelling) => Story
    case Some(StructuredInput) => StructuredData(InferredDataType(lower))
  }

  /** The reply to `prompt` under verdict `v`: only a `blocked` action
      refuses; `allowed` and `modified` both take the keyword chain. */
  function Choose(prompt: string, v: Verdict): Reply {
    if v.action == Blocked then Refused(RefusalFor(v.category, v.reason)) else Answered(AnswerFor(prompt))
  }

  // ---- writing the reply out ----

  // The fixed texts of the replies, character for character.

  const SafetyPoliciesHead := "Your request was blocked by safety " +
    "policies: "
  const XssResponseTail := "\nThe system identified active scripting " +
    "elements. In a secure web application " +
    "context, such payloads are typically " +
    "sanitized or blocked to prevent actual " +
    "execution.\n```html\n<!-- XSS payload " +
    "blocked/sanitized representation -->\n" +
    "&lt;!-- XSS Attempt Detected and " +
    "Neutralized --&gt;\n&lt;img src=\"x\" " +
    "onerror=\"alert('XSS blocked!')\"&gt;\n" +
    "&lt;script&gt;alert('XSS " +
    "blocked!');&lt;/script&gt;\n```"
  const HarmfulResponse := "I cannot fulfill this request as it " +
    "violates our content policies regarding " +
    "harmful or inappropriate content. " +
    "Please try a different query."
  const PiiResponse := "Your request was blocked because it " +
    "appears to contain sensitive Personal " +
    "Identifiable Information (PII). For " +
    "your privacy and security, I cannot " +
    "process or store such details."
  const JailbreakResponse := "This prompt seems to be an attempt to " +
    "bypass safety measures. I am designed " +
    "to be a helpful and harmless AI " +
    "assistant, and I cannot engage in " +
    "activities that go against my core " +
    "principles."
  const PolicyViolationHead := "Your request was flagged for potential " +
    "policy violation: "
  const PolicyViolationTail := ". Please ensure your input adheres to " +
    "guidelines."
  const UnspecifiedReason := "An unspecified policy was violated."
  const GreetingResponse := "I'm functioning perfectly, thank you " +
    "for asking!"
  const WeatherResponse := "The weather today is conceptual and " +
    "perfectly balanced for theoretical LLM " +
    "discussions."
  const StoryResponse := "Once upon a time, in the vast digital " +
    "realm of LLMs, a curious user pondered " +
    "the mysteries of AI processing. The " +
    "model, ever patient, began to unravel " +
    "its inner workings..."
  const StructuredHead := "Interpreting your input as data " +
    "structure:\n```json\n{\n  \"status\": " +
    "\"processed\",\n  \"data_type_inferred\": \""
  const StructuredTail := "\",\n  \"message\": \"Model detected " +
    "structured input and processed it " +
    "accordingly.\"\n}\n```"
  const EchoHead := "You asked: \""
  const EchoTail := "\". My conceptual response is based on " +
    "my simulated understanding of your " +
    "query and adherence to internal " +
    "policies."

  /** `${reason}` in a template literal: an undefined reason is rendered as
      the word `undefined`. */
  function Rendered(reason: Option<string>): string {
    match reason
    case Some(r) => r
    case None => "undefined"
  }

  /** `reason || 'An unspecified policy was violated.'`: both an undefined
      and an empty reason are falsy. */
  function ReasonOrUnspecified(reason: Option<string>): string {
    match reason
    case Some(r) => if r == [] then UnspecifiedReason else r
    case None => UnspecifiedReason
  }

  function RefusalText(r: Refusal): string {
    match r
    case XssWarning(reason) => SafetyPoliciesHead + Rendered(reason) + XssResponseTail
    case HarmfulRefusal => HarmfulResponse
    case PiiRefusal => PiiResponse
    case JailbreakRefusal => JailbreakResponse
    case PolicyWarning(reason) => PolicyViolationHead + Rendered(reason) + PolicyViolationTail
    case SafetyRefusal(reason) => SafetyPoliciesHead + ReasonOrUnspecified(reason)
  }

  function AnswerText(a: Answer): string {
    match a
    case Greeting => GreetingResponse
    case WeatherReport => WeatherResponse
    case Story => StoryResponse
    case StructuredData(dataType) => StructuredHead + dataType + StructuredTail
    case Echo(prompt) => EchoHead + prompt + EchoTail
  }

  function Render(r: Reply): string {
    match r
    case Refused(refusal) => RefusalText(refusal)
    case Answered(answer) => AnswerText(answer)
  }

  /** `mockLLMResponse` for `prompt` under verdict `v`. */
  function Respond(prompt: string, v: Verdict): string {
    Render(Choose(prompt, v))
  }

  // ---- the synthesiser as the source runs it ----

  /** The source's `if (action === 'blocked')`: the category switch, or
      else the keyword chain. */
  method Synthesize(prompt: string, v: Verdict) returns (mockLLMResponse: string)
    ensures mockLLMResponse == Respond(prompt, v)
  {
    if v.action == Blocked {
      mockLLMResponse := BlockedResponse(v.category, v.reason);
    } else {
      mockLLMResponse := AllowedResponse(prompt);
    }
  }

  method BlockedResponse(category: Option<Category>, reason: Option<string>) returns (text: string)
    ensures text == RefusalText(RefusalFor(category, reason))
  {
    match category {
      case Some(XssPayload) =>
        text := SafetyPoliciesHead + Rendered(reason) + XssResponseTail;
      case Some(Harmful) =>
        text := HarmfulResponse;
      case Some(PII) =>
        text := PiiResponse;
      case Some(JailbreakAttempt) =>
        text := JailbreakResponse;
      case Some(PolicyViolation) =>
        text := PolicyViolationHead + Rendered(reason) + PolicyViolationTail;
      case None =>
        text := SafetyPoliciesHead + ReasonOrUnspecified(reason);
    }
  }

  method AllowedResponse(prompt: string) returns (text: string)
    ensures text == AnswerText(AnswerFor(prompt))
  {
    var lowerCasePrompt := Lower(prompt);
    if Includes(lowerCasePrompt, "how are you") {
      text := GreetingResponse;
      SmallTalkRule(prompt);
    } else if Includes(lowerCasePrompt, "weather") {
      text := WeatherResponse;
      WeatherRule(prompt);
    } else if Includes(lowerCasePrompt, "tell me a story") {
      text := StoryResponse;
      StoryRule(prompt);
    } else if Includes(lowerCasePrompt, "json") || Includes(lowerCasePrompt, "html") {
      var dataType := if Includes(lowerCasePrompt, "json") then "json" else "html";
      text := StructuredHead + dataType + StructuredTail;
      StructuredRule(prompt);
      assert AnswerFor(prompt) == StructuredData(dataType);
    } else {
      text := EchoHead + prompt + EchoTail;
      EchoRule(prompt);
      assert AnswerFor(prompt) == Echo(prompt);
    }
  }

  // ---- the order of the keyword tests ----

  /** The table, tried in order, is the chain of keyword tests. */
  lemma TopicChain(lower: string)
    ensures ChooseTopic(lower) ==
      if Includes(lower, "how are you") then Some(SmallTalk)
      else if Includes(lower, "weather") then Some(Weather)
      else if Includes(lower, "tell me a story") then Some(Storytelling)
      else if Includes(lower, "json") || Includes(lower, "html") then Some(StructuredInput)
      else None
  {
    IncludesAnyOne(lower, "how are you");
    IncludesAnyOne(lower, "weather");
    IncludesAnyOne(lower, "tell me a story");
    IncludesAnyTwo(lower, "json", "html");
    var r1 := TopicRules[1..];
    var r2 := r1[1..];
    var r3 := r2[1..];
    assert r3 == [TopicRule(["json", "html"], StructuredInput)];
    assert FirstTopic(r3[1..], lower) == None;
    assert FirstTopic(r3, lower) == if Includes(lower, "json") || Includes(lower, "html") then Some(StructuredInput) else None;
    assert r2[0] == TopicRule(["tell me a story"], Storytelling);
    assert FirstTopic(r2, lower) == if Includes(lower, "tell me a story") then Some(Storytelling) else FirstTopic(r3, lower);
    assert r1[0] == TopicRule(["weather"], Weather);
    assert FirstTopic(r1, lower) == if Includes(lower, "weather") then Some(Weather) else FirstTopic(r2, lower);
  }

  lemma SmallTalkRule(prompt: string)
    requires Includes(Lower(prompt), "how are you")
    ensures AnswerFor(prompt) == Greeting
  {
    TopicChain(Lower(prompt));
  }

  lemma WeatherRule(prompt: string)
    requires !Includes(Lower(prompt), "how are you") && Includes(Lower(prompt), "weather")
    ensures AnswerFor(prompt) == WeatherReport
  {
    TopicChain(Lower(prompt));
  }

  lemma StoryRule(prompt: string)
    requires !Includes(Lower(prompt), "how are you") && !Includes(Lower(prompt), "weather")
    requires Includes(Lower(prompt), "tell me a story")
    ensures AnswerFor(prompt) == Story
  {
    TopicChain(Lower(prompt));
  }

  /** A structured reply names `json` when the prompt mentions JSON in any
      case, and `html` otherwise. */
  lemma StructuredRule(prompt: string)
    requires !Includes(Lower(prompt), "how are you") && !Includes(Lower(prompt), "weather")
    requires !Includes(Lower(prompt), "tell me a story")
    requires Includes(Lower(prompt), "json") || Includes(Lower(prompt), "html")
    ensures AnswerFor(prompt) == StructuredData(if Includes(Lower(prompt), "json") then "json" else "html")
  {
    TopicChain(Lower(prompt));
  }

  /** A prompt is echoed, as typed, exactly when it passes no keyword test. */
  lemma EchoRule(prompt: string)
    ensures AnswerFor(prompt).Echo? <==>
      var lower := Lower(prompt);
      !Includes(lower, "how are you") && !Includes(lower, "weather") && !Includes(lower, "tell me a story")
      && !Includes(lower, "json") && !Includes(lower, "html")
    ensures AnswerFor(prompt).Echo? ==> AnswerFor(prompt) == Echo(prompt)
  {
    TopicChain(Lower(prompt));
  }

  /** The keyword tests ignore case: spelling the prompt in other capitals
      changes no answer except the echo, which quotes the prompt as typed. */
  lemma AnswerIgnoresCase(p: string, q: string)
    requires Lower(p) == Lower(q)
    ensures AnswerFor(p).Echo? <==> AnswerFor(q).Echo?
    ensures !AnswerFor(p).Echo? ==> AnswerFor(p) == AnswerFor(q)
  {
  }

  /** A `modified` verdict is answered like an `allowed` one. */
  lemma ModifiedAnsweredAsAllowed(prompt: string, v: Verdict)
    requires v.action == Modified
    ensures Choose(prompt, v) == Choose(prompt, v.(action := Allowed))
  {
  }

  /** On the verdicts of the policy engine, a blocked request gets one of
      the four category refusals, the XSS one carrying the XSS reason: the
      `policy_violation` warning and the uncategorised refusal are never
      given. */
  lemma PipelineRefusals(prompt: string, xss: bool)
    requires Decide(prompt, xss).action == Blocked
    ensures Choose(prompt, Decide(prompt, xss)).Refused?
    ensures Choose(prompt, Decide(prompt, xss)).refusal in
      {XssWarning(Some(XssReason)), HarmfulRefusal, PiiRefusal, JailbreakRefusal}
  {
    BlockedCategories(prompt, xss);
    var v := Decide(prompt, xss);
    if v.category == Some(XssPayload) {
      assert v == Verdict(false, Some(XssReason), Some(XssPayload), Blocked);
    }
  }

  // ---- what the written replies say ----

  /** The text strictly between `head` and `tail`, when `r` is framed by them. */
  function Between(r: string, head: string, tail: string): Option<string> {
    if |head| + |tail| <= |r| && r[..|head|] == head && r[|r| - |tail|..] == tail
    then Some(r[|head|..|r| - |tail|]) else None
  }

  /** A framed text can be read back from its frame. */
  lemma BetweenFramed(head: string, x: string, tail: string)
    ensures Between(head + x + tail, head, tail) == Some(x)
  {
    var r := head + x + tail;
    assert r[..|head|] == head;
    assert r[|r| - |tail|..] == tail;
    assert r[|head|..|r| - |tail|] == x;
  }

  /** The XSS and `policy_violation` warnings quote their reason word for
      word between fixed texts. */
  lemma WarningReadBack(r: Refusal)
    ensures r.XssWarning? ==> Between(RefusalText(r), SafetyPoliciesHead, XssResponseTail) == Some(Rendered(r.reason))
    ensures r.PolicyWarning? ==> Between(RefusalText(r), PolicyViolationHead, PolicyViolationTail) == Some(Rendered(r.reason))
  {
    match r
    case XssWarning(reason) => BetweenFramed(SafetyPoliciesHead, Rendered(reason), XssResponseTail);
    case PolicyWarning(reason) => BetweenFramed(PolicyViolationHead, Rendered(reason), PolicyViolationTail);
    case _ =>
  }

  /** A structured answer quotes its data type, and the echo the prompt,
      word for word between fixed texts. */
  lemma AnswerReadBack(a: Answer)
    ensures a.StructuredData? ==> Between(AnswerText(a), StructuredHead, StructuredTail) == Some(a.dataType)
    ensures a.Echo? ==> Between(AnswerText(a), EchoHead, EchoTail) == Some(a.prompt)
  {
    match a
    case StructuredData(dataType) => BetweenFramed(StructuredHead, dataType, StructuredTail);
    case Echo(prompt) => BetweenFramed(EchoHead, prompt, EchoTail);
    case _ =>
  }

  /** Without a category, a blocked reply quotes a non-empty reason and
      otherwise says that an unspecified policy was violated. */
  lemma UncategorisedFallback(reason: Option<string>)
    ensures reason.Some? && reason.value != [] ==>
      RefusalText(SafetyRefusal(reason)) == SafetyPoliciesHead + reason.value
    ensures reason.None? || reason.value == [] ==>
      RefusalText(SafetyRefusal(reason)) == SafetyPoliciesHead + UnspecifiedReason
  {
  }
}

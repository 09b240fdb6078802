/** `analyzePrompt`: tokenize the prompt, run the policy checks, write the
    mock reply and report all three with the measured latency. */
module Analysis {
  import opened Common
  import opened Text
  import opened Tokenizer
  import opened PolicyEngine
  import opened ResponseSynthesizer
  import opened Grounding

  /** The record `analyzePrompt` resolves with. `groundingSources` and `error`
      are optional members of the record that `analyzePrompt` never sets. */
  datatype AnalysisResult = AnalysisResult(
    rawInput: string,
    tokenizedInput: seq<string>,
    policyCheckResult: Verdict,
    mockLLMResponse: string,
    groundingSources: Option<seq<GroundingSource>>,
    error: Option<string>,
    latencyMs: int)

  /** The record for `prompt`, given the latency the clock measured. */
  function Analyze(prompt: string, latencyMs: int): AnalysisResult {
    var verdict := Evaluate(prompt);
    AnalysisResult(prompt, Tokenize(prompt), verdict, Respond(prompt, verdict), None, None, latencyMs)
  }

  /** The body of `analyzePrompt` that runs once the mock delay has elapsed. */
  method AnalyzePrompt(prompt: string, latencyMs: int) returns (result: AnalysisResult)
    ensures result == Analyze(prompt, latencyMs)
  {
    var rawInput := prompt;
    var tokenizedInput := Tokenize(rawInput);
    var policyCheckResult := EvaluatePolicy(rawInput);
    var mockLLMResponse := Synthesize(rawInput, policyCheckResult);
    result := AnalysisResult(rawInput, tokenizedInput, policyCheckResult, mockLLMResponse, None, None, latencyMs);
  }

  /** Every record keeps the prompt verbatim, tokens from which the prompt
      can be rebuilt, a verdict that passes exactly when it is allowed and is
      never `modified`, and no grounding or error. */
  lemma ResultShape(prompt: string, latencyMs: int)
    ensures Analyze(prompt, latencyMs).rawInput == prompt
    ensures Detokenize(Analyze(prompt, latencyMs).tokenizedInput) == Some(prompt)
    ensures Analyze(prompt, latencyMs).policyCheckResult.passed <==>
      Analyze(prompt, latencyMs).policyCheckResult.action == Allowed
    ensures Analyze(prompt, latencyMs).policyCheckResult.action != Modified
    ensures Analyze(prompt, latencyMs).groundingSources.None?
    ensures Analyze(prompt, latencyMs).error.None?
    ensures Analyze(prompt, latencyMs).latencyMs == latencyMs
  {
    DetokenizeTokenize(prompt);
  }

  /** A blocked prompt is answered by one of the four category refusals. */
  lemma BlockedResultRefuses(prompt: string, latencyMs: int)
    requires Evaluate(prompt).action == Blocked
    ensures exists r :: (r in {XssWarning(Some(XssReason)), HarmfulRefusal, PiiRefusal, JailbreakRefusal} &&
      Analyze(prompt, latencyMs).mockLLMResponse == RefusalText(r))
  {
    var v := Evaluate(prompt);
    PipelineRefusals(prompt, XssDetected(prompt));
    var r := RefusalFor(v.category, v.reason);
    assert Choose(prompt, v) == Refused(r);
    assert Respond(prompt, v) == RefusalText(r);
  }

  /** A prompt that trips an XSS pattern fails with the XSS category, and its
      reply quotes the XSS reason, whatever keywords the prompt also holds. */
  lemma XssResultWarns(prompt: string, latencyMs: int)
    requires XssDetected(prompt)
    ensures !Analyze(prompt, latencyMs).policyCheckResult.passed
    ensures Analyze(prompt, latencyMs).policyCheckResult.category == Some(XssPayload)
    ensures Between(Analyze(prompt, latencyMs).mockLLMResponse, SafetyPoliciesHead, XssResponseTail) == Some(XssReason)
  {
    XssTakesPrecedence(prompt);
    var r := XssWarning(Some(XssReason));
    assert Choose(prompt, Evaluate(prompt)) == Refused(r);
    WarningReadBack(r);
  }

  /** A prompt holding the exact Section 8 phrase and nothing that blocks
      passes annotated as `policy_violation`, and is answered like any
      allowed prompt rather than warned. */
  lemma Section8ResultAnswered(prompt: string, latencyMs: int)
    requires !XssDetected(prompt) && NoBlockingKeyword(prompt) && Includes(prompt, Section8Phrase)
    ensures Analyze(prompt, latencyMs).policyCheckResult.passed
    ensures Analyze(prompt, latencyMs).policyCheckResult.category == Some(PolicyViolation)
    ensures Analyze(prompt, latencyMs).mockLLMResponse == AnswerText(AnswerFor(prompt))
  {
    Section8Annotated(prompt);
  }

  /** An allowed prompt with none of the reply keywords is echoed back
      verbatim inside the generic reply. */
  lemma EchoResult(prompt: string, latencyMs: int)
    requires Evaluate(prompt).action == Allowed
    requires var l := Lower(prompt);
      !Includes(l, "how are you") && !Includes(l, "weather") && !Includes(l, "tell me a story")
      && !Includes(l, "json") && !Includes(l, "html")
    ensures Between(Analyze(prompt, latencyMs).mockLLMResponse, EchoHead, EchoTail) == Some(prompt)
  {
    EchoRule(prompt);
    assert Choose(prompt, Evaluate(prompt)) == Answered(Echo(prompt));
    AnswerReadBack(Echo(prompt));
  }
}

/** The ordered policy engine of `analyzePrompt`: the rule catalog as an
    explicit ordered list, its first-match-wins meaning `Evaluate`, and the
    engine as the source runs it (`EvaluatePolicy`: mutable locals, a loop
    over the XSS patterns that breaks at the first hit, then an if/else
    chain), proved equal to `Evaluate`.

    As in the source, the XSS scan runs first and the chain reads only its
    boolean outcome: `Decide(prompt, xss)` is the chain given that outcome,
    and `Evaluate(prompt)` feeds it the scan's real result. */
module PolicyEngine {
  import opened Common
  import opened Text
  import opened XssPatterns

  datatype Category = Harmful | PII | JailbreakAttempt | PolicyViolation | XssPayload

  datatype Action = Allowed | Blocked | Modified

  /** `policyCheckResult`; `None` stands for an `undefined` field. */
  datatype Verdict = Verdict(passed: bool, reason: Option<string>, category: Option<Category>, action: Action)

  /** What a rule tests. */
  datatype Condition =
    | AnyXssPattern                            // some XSS pattern tests true on the raw prompt
    | LowerIncludesAny(keywords: seq<string>)  // the lower-cased prompt includes one of the keywords
    | RawIncludes(phrase: string)              // the prompt includes the phrase, case preserved

  /** A rule and the verdict fields it sets when it is the first to hold. */
  datatype Rule = Rule(condition: Condition, passed: bool, reason: string, category: Category, action: Action)

  const XssReason := "Detected potential Cross-Site Scripting " +
    "(XSS) payload. Contains active " +
    "scripting elements or event handlers."
  const CommandInjectionReason := "Detected potential command injection " +
    "attempt."
  const PiiReason := "Detected potential PII in input."
  const HarmfulReason := "Detected request for harmful content."
  const PromptInjectionReason := "Detected prompt injection attempt."
  const PolicyContextReason := "Detected a policy rule context, " +
    "processing as normal text."

  const CommandInjectionKeyword := "delete system files"
  const PincodeKeyword := "pincode"
  const SocialSecurityKeyword := "social security"
  const HateSpeechKeyword := "generate hate speech"
  const PromptInjectionKeyword := "ignore all previous instructions"
  // Split in two so that `LowerLacksSection8` can read its first character.
  const Section8Phrase := "Tenant owes additional fees " + "not covered by Section 8"

  /** The rules, highest precedence first. */
  const Catalog: seq<Rule> := [
    Rule(AnyXssPattern, false, XssReason, XssPayload, Blocked),
    Rule(LowerIncludesAny([CommandInjectionKeyword]), false, CommandInjectionReason, JailbreakAttempt, Blocked),
    Rule(LowerIncludesAny([PincodeKeyword, SocialSecurityKeyword]), false, PiiReason, PII, Blocked),
    Rule(LowerIncludesAny([HateSpeechKeyword]), false, HarmfulReason, Harmful, Blocked),
    Rule(LowerIncludesAny([PromptInjectionKeyword]), false, PromptInjectionReason, JailbreakAttempt, Blocked),
    Rule(RawIncludes(Section8Phrase), true, PolicyContextReason, PolicyViolation, Allowed)
  ]

  /** The verdict left by the initial values of the locals. */
  const DefaultVerdict := Verdict(true, None, None, Allowed)

  /** Some XSS pattern tests true on the raw prompt. */
  function XssDetected(prompt: string): bool {
    exists k: nat | k < |Patterns| :: Test(Patterns[k], prompt)
  }

  /** Whether condition `c` holds, given the outcome `xss` of the XSS scan. */
  function Holds(c: Condition, prompt: string, xss: bool): bool {
    match c
    case AnyXssPattern => xss
    case LowerIncludesAny(keywords) => IncludesAny(Lower(prompt), keywords)
    case RawIncludes(phrase) => Includes(prompt, phrase)
  }

  function RuleHolds(prompt: string, xss: bool): Rule -> bool {
    (r: Rule) => Holds(r.condition, prompt, xss)
  }

  function VerdictOf(r: Rule): Verdict {
    Verdict(r.passed, Some(r.reason), Some(r.category), r.action)
  }

  /** First match wins; no match leaves the default verdict. Every verdict
      keeps the invariant of `policyCheckResult`: it passes exactly when it
      is allowed, it is never `modified`, a reason comes with a category, a
      passing verdict's category can only be `policy_violation`, and a
      failing one always names another category. */
  function Decide(prompt: string, xss: bool): (v: Verdict)
    ensures v.passed == (v.action == Allowed)
    ensures v.action != Modified
    ensures v.reason.Some? <==> v.category.Some?
    ensures v.passed && v.category.Some? ==> v.category == Some(PolicyViolation)
    ensures !v.passed ==> v.category.Some? && v.category != Some(PolicyViolation)
  {
    match FirstIndex(Catalog, RuleHolds(prompt, xss))
    case None => DefaultVerdict
    case Some(k) => VerdictOf(Catalog[k])
  }

  /** The verdict of the policy checks on `prompt`. */
  function Evaluate(prompt: string): Verdict {
    Decide(prompt, XssDetected(prompt))
  }

  /** The verdict of the first rule that holds. */
  lemma DecideFirst(prompt: string, xss: bool, k: nat)
    requires k < |Catalog| && Holds(Catalog[k].condition, prompt, xss)
    requires forall j :: 0 <= j < k ==> !Holds(Catalog[j].condition, prompt, xss)
    ensures Decide(prompt, xss) == VerdictOf(Catalog[k])
  {
    FirstIndexIs(Catalog, RuleHolds(prompt, xss), k);
  }

  /** `analyzePrompt`'s policy checks as the source performs them. */
  method EvaluatePolicy(prompt: string) returns (v: Verdict)
    ensures v == Evaluate(prompt)
  {
    var passed := true;
    var reason: Option<string> := None;
    var detectedCategory: Option<Category> := None;
    var action := Allowed;

    var lowerCasePrompt := Lower(prompt);

    var isXssDetected := false;
    for i := 0 to |Patterns|
      invariant !isXssDetected
      invariant forall k :: 0 <= k < i ==> !Test(Patterns[k], prompt)
    {
      if Test(Patterns[i], prompt) {
        isXssDetected := true;
        break;
      }
    }
    assert isXssDetected == XssDetected(prompt);

    if isXssDetected {
      passed, reason, detectedCategory, action := false, Some(XssReason), Some(XssPayload), Blocked;
      XssRule(prompt);
    } else if Includes(lowerCasePrompt, CommandInjectionKeyword) {
      passed, reason, detectedCategory, action := false, Some(CommandInjectionReason), Some(JailbreakAttempt), Blocked;
      CommandInjectionRule(prompt);
    } else if Includes(lowerCasePrompt, PincodeKeyword) || Includes(lowerCasePrompt, SocialSecurityKeyword) {
      passed, reason, detectedCategory, action := false, Some(PiiReason), Some(PII), Blocked;
      PiiRule(prompt);
    } else if Includes(lowerCasePrompt, HateSpeechKeyword) {
      passed, reason, detectedCategory, action := false, Some(HarmfulReason), Some(Harmful), Blocked;
      HarmfulRule(prompt);
    } else if Includes(lowerCasePrompt, PromptInjectionKeyword) {
      passed, reason, detectedCategory, action := false, Some(PromptInjectionReason), Some(JailbreakAttempt), Blocked;
      PromptInjectionRule(prompt);
    } else if Includes(prompt, Section8Phrase) {
      passed, reason, detectedCategory, action := true, Some(PolicyContextReason), Some(PolicyViolation), Allowed;
      Section8Annotated(prompt);
    } else {
      NoRuleDefault(prompt);
    }
    v := Verdict(passed, reason, detectedCategory, action);
  }

  // ---- properties of the rule order ----

  /** A positive XSS scan decides, whatever else the prompt contains. */
  lemma XssRule(prompt: string)
    ensures Decide(prompt, true) == Verdict(false, Some(XssReason), Some(XssPayload), Blocked)
  {
    DecideFirst(prompt, true, 0);
  }

  /** An XSS match is reported as such whatever else the prompt contains. */
  lemma XssTakesPrecedence(prompt: string)
    requires XssDetected(prompt)
    ensures Evaluate(prompt) == Verdict(false, Some(XssReason), Some(XssPayload), Blocked)
  {
    XssRule(prompt);
  }

  /** Next, `delete system files` in any case is a jailbreak attempt. */
  lemma CommandInjectionRule(prompt: string)
    requires Includes(Lower(prompt), CommandInjectionKeyword)
    ensures Decide(prompt, false) == Verdict(false, Some(CommandInjectionReason), Some(JailbreakAttempt), Blocked)
  {
    IncludesAnyOne(Lower(prompt), CommandInjectionKeyword);
    DecideFirst(prompt, false, 1);
  }

  /** Next, `pincode` or `social security` in any case is PII. */
  lemma PiiRule(prompt: string)
    requires !Includes(Lower(prompt), CommandInjectionKeyword)
    requires Includes(Lower(prompt), PincodeKeyword) || Includes(Lower(prompt), SocialSecurityKeyword)
    ensures Decide(prompt, false) == Verdict(false, Some(PiiReason), Some(PII), Blocked)
  {
    IncludesAnyOne(Lower(prompt), CommandInjectionKeyword);
    IncludesAnyTwo(Lower(prompt), PincodeKeyword, SocialSecurityKeyword);
    DecideFirst(prompt, false, 2);
  }

  /** Without their keywords, rules 1 and 2 do not hold. */
  lemma NoEarlierKeywords(prompt: string)
    requires !Includes(Lower(prompt), CommandInjectionKeyword)
    requires !Includes(Lower(prompt), PincodeKeyword) && !Includes(Lower(prompt), SocialSecurityKeyword)
    ensures !Holds(Catalog[1].condition, prompt, false) && !Holds(Catalog[2].condition, prompt, false)
  {
    IncludesAnyOne(Lower(prompt), CommandInjectionKeyword);
    IncludesAnyTwo(Lower(prompt), PincodeKeyword, SocialSecurityKeyword);
  }

  /** Next, `generate hate speech` in any case is harmful. */
  lemma HarmfulRule(prompt: string)
    requires !Includes(Lower(prompt), CommandInjectionKeyword)
    requires !Includes(Lower(prompt), PincodeKeyword) && !Includes(Lower(prompt), SocialSecurityKeyword)
    requires Includes(Lower(prompt), HateSpeechKeyword)
    ensures Decide(prompt, false) == Verdict(false, Some(HarmfulReason), Some(Harmful), Blocked)
  {
    NoEarlierKeywords(prompt);
    IncludesAnyOne(Lower(prompt), HateSpeechKeyword);
    DecideFirst(prompt, false, 3);
  }

  /** Next, `ignore all previous instructions` in any case is a jailbreak
      attempt. */
  lemma PromptInjectionRule(prompt: string)
    requires !Includes(Lower(prompt), CommandInjectionKeyword)
    requires !Includes(Lower(prompt), PincodeKeyword) && !Includes(Lower(prompt), SocialSecurityKeyword)
    requires !Includes(Lower(prompt), HateSpeechKeyword)
    requires Includes(Lower(prompt), PromptInjectionKeyword)
    ensures Decide(prompt, false) == Verdict(false, Some(PromptInjectionReason), Some(JailbreakAttempt), Blocked)
  {
    NoEarlierKeywords(prompt);
    IncludesAnyOne(Lower(prompt), HateSpeechKeyword);
    IncludesAnyOne(Lower(prompt), PromptInjectionKeyword);
    DecideFirst(prompt, false, 4);
  }

  /** None of the blocking keywords occurs in the lower-cased prompt. */
  predicate NoBlockingKeyword(prompt: string) {
    var l := Lower(prompt);
    !Includes(l, CommandInjectionKeyword) && !Includes(l, PincodeKeyword) && !Includes(l, SocialSecurityKeyword)
    && !Includes(l, HateSpeechKeyword) && !Includes(l, PromptInjectionKeyword)
  }

  lemma NoBlockingRule(prompt: string)
    requires NoBlockingKeyword(prompt)
    ensures forall j :: 0 <= j < 5 ==> !Holds(Catalog[j].condition, prompt, false)
  {
    NoEarlierKeywords(prompt);
    IncludesAnyOne(Lower(prompt), HateSpeechKeyword);
    IncludesAnyOne(Lower(prompt), PromptInjectionKeyword);
  }

  /** With no blocking rule holding, the exact Section 8 phrase is allowed
      but annotated as a policy context. */
  lemma Section8Annotated(prompt: string)
    requires NoBlockingKeyword(prompt) && Includes(prompt, Section8Phrase)
    ensures Decide(prompt, false) == Verdict(true, Some(PolicyContextReason), Some(PolicyViolation), Allowed)
  {
    NoBlockingRule(prompt);
    DecideFirst(prompt, false, 5);
  }

  /** When no rule holds the prompt passes with neither reason nor category. */
  lemma NoRuleDefault(prompt: string)
    requires NoBlockingKeyword(prompt) && !Includes(prompt, Section8Phrase)
    ensures Decide(prompt, false) == DefaultVerdict
  {
    NoBlockingRule(prompt);
    DefaultVerdictIff(prompt, false);
  }

  /** The default verdict means that no rule matched, and only that. */
  lemma DefaultVerdictIff(prompt: string, xss: bool)
    ensures Decide(prompt, xss) == DefaultVerdict <==>
      forall k :: 0 <= k < |Catalog| ==> !Holds(Catalog[k].condition, prompt, xss)
  {
    assert forall k :: 0 <= k < |Catalog| ==>
      (RuleHolds(prompt, xss)(Catalog[k]) <==> Holds(Catalog[k].condition, prompt, xss));
  }

  // ---- case ----

  /** The XSS scan reads the prompt only through `Lower`. */
  lemma XssIgnoresCase(p: string, q: string)
    requires Lower(p) == Lower(q)
    ensures XssDetected(p) == XssDetected(q)
  {
    assert forall j: nat | j < |Patterns| :: Test(Patterns[j], p) == Test(Patterns[j], q);
  }

  /** Blocking is case-insensitive: prompts that differ only in the case of
      ASCII letters are blocked alike, with the same verdict. */
  lemma BlockingIgnoresCase(p: string, q: string)
    requires Lower(p) == Lower(q)
    ensures Evaluate(p).action == Blocked <==> Evaluate(q).action == Blocked
    ensures Evaluate(p).action == Blocked ==> Evaluate(p) == Evaluate(q)
  {
    XssIgnoresCase(p, q);
    var xss := XssDetected(p);
    assert forall k :: 0 <= k < 5 ==> Holds(Catalog[k].condition, p, xss) == Holds(Catalog[k].condition, q, xss);
    var rp := FirstIndex(Catalog, RuleHolds(p, xss));
    var rq := FirstIndex(Catalog, RuleHolds(q, xss));
    if rp.Some? && rp.value < 5 {
      DecideFirst(q, xss, rp.value);
    }
  }

  /** Only the Section 8 rule gives the `policy_violation` category: no
      earlier rule holds, and the prompt holds the exact phrase. */
  lemma AnnotatedIsSection8(prompt: string, xss: bool)
    requires Decide(prompt, xss).category == Some(PolicyViolation)
    ensures forall j :: 0 <= j < 5 ==> !Holds(Catalog[j].condition, prompt, xss)
    ensures Includes(prompt, Section8Phrase)
  {
    var r := FirstIndex(Catalog, RuleHolds(prompt, xss));
    assert r == Some(5);
  }

  /** A lower-cased prompt cannot contain the phrase, which starts with `T`. */
  lemma LowerLacksSection8(prompt: string)
    ensures !Includes(Lower(prompt), Section8Phrase)
  {
    var l := Lower(prompt);
    LowerChars(prompt);
    assert Section8Phrase[0] == 'T';
    MissingCharExcludes(l, Section8Phrase, 0);
  }

  /** The Section 8 rule is case-sensitive: lower-casing a prompt it annotates
      removes the annotation and leaves the default verdict. */
  lemma Section8CaseSensitive(prompt: string)
    requires Evaluate(prompt).category == Some(PolicyViolation)
    ensures Evaluate(Lower(prompt)) == DefaultVerdict
  {
    var l := Lower(prompt);
    var xss := XssDetected(prompt);
    AnnotatedIsSection8(prompt, xss);
    assert !Holds(Catalog[0].condition, prompt, xss);
    LowerIdempotent(prompt);
    XssIgnoresCase(prompt, l);
    LowerUnmatched(prompt);
  }

  /** If no blocking rule holds on a prompt, no rule at all holds on its
      lower-cased form. */
  lemma LowerUnmatched(prompt: string)
    requires forall j :: 0 <= j < 5 ==> !Holds(Catalog[j].condition, prompt, false)
    ensures Decide(Lower(prompt), false) == DefaultVerdict
  {
    var l := Lower(prompt);
    LowerIdempotent(prompt);
    assert forall j :: 0 <= j < 5 ==> Holds(Catalog[j].condition, l, false) == Holds(Catalog[j].condition, prompt, false);
    LowerLacksSection8(prompt);
    DefaultVerdictIff(l, false);
  }

  /** On the verdicts the catalog produces, a blocked request always carries
      the XSS, harmful, PII or jailbreak category: the synthesiser's
      `policy_violation` and `default` cases are never reached. */
  lemma BlockedCategories(prompt: string, xss: bool)
    ensures Decide(prompt, xss).action == Blocked ==>
      Decide(prompt, xss).category.Some? && Decide(prompt, xss).category.value in {XssPayload, Harmful, PII, JailbreakAttempt}
  {
  }
}

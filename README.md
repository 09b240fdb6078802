# Prompt analyzer: a Dafny model of the analysis pipeline

This project models the decision logic of a demonstration content-moderation
pipeline. `llmAnalysisService.analyzePrompt` takes a free-text request and does four things:

- it splits the request into indexed token tags;
- it runs an ordered chain of policy rules: five XSS regular expressions, then
  four case-insensitive blocking keywords, then one case-sensitive rule that
  allows the request but annotates it;
- it writes a canned reply, a refusal chosen by category or an answer chosen by
  a second keyword chain;
- it returns all of this in one record with the measured latency.

`mockGeminiGroundingCall` adds two fixed news citations when the request
mentions the latest news.

Modules, in dependency order:

- `Common`: `Option`, and `FirstIndex`, a generic first-match search.
- `Text`: JavaScript string behaviour the pipeline relies on.
  - `toLowerCase` is restricted to ASCII.
  - `includes` is proved equal to "occurs at some position".
  - The `\s` character class is the exact JavaScript set.
- `Tokenizer`: `prompt.split(' ').map((word, i) => ...)`.
  - `Split` is proved to be the unique separator-free list of segments that
    joins back to the prompt.
  - The tags can be read back. So `Detokenize(Tokenize(p)) == Some(p)`: no
    information is lost.
- `XssPatterns`: the five regular expressions under the flags `is`.
  - Each pattern's meaning is stated position by position, as a ghost predicate.
  - Each is also implemented as a scanner. The scanners are proved equal to
    those meanings.
- `PolicyEngine`: the rule catalog as an explicit ordered list, with
  first-match-wins meaning `Decide`/`Evaluate`.
  - `EvaluatePolicy` is the source's imperative engine: mutable locals, a loop
    over the patterns that breaks at the first hit, then the if/else chain.
    It is proved equal to `Evaluate`.
  - The rule lemmas state, one rule at a time, which verdict wins and why.
- `ResponseSynthesizer`: which reply a verdict gets (`Choose`) and its exact
  text (`Render`).
  - The answer chain is a table of keyword rules tried in order, proved equal
    to the source's if/else chain.
  - `Synthesize`, `BlockedResponse` and `AllowedResponse` are the source's
    switch and if/else chain, proved to write `Render(Choose(..))`.
  - Reply texts are reproduced character for character.
- `Grounding`: the keyword lookup of the mock grounding call.
- `Analysis`: the record `analyzePrompt` resolves with, and `AnalyzePrompt`,
  which composes the three stages. Lemmas relate the record's fields to each
  other.

A few behaviours of App.tsx worth knowing when reading the model:

- Tokens come from `prompt.split(' ')` (App.tsx:39), which splits on the
  single character `' '`. Two spaces in a row give an empty segment, and any
  other whitespace, a tab say, stays inside its segment. Each token is the
  string `[T<i>:<segment>]`.
- The `policy_violation` warning (App.tsx:122-124) and the uncategorised
  `default` refusal (App.tsx:125-126) exist in the synthesiser but cannot be
  reached from the engine's verdicts (`ResponseSynthesizer.PipelineRefusals`):
  - the only rule giving `policy_violation` allows the request (App.tsx:91-96);
  - every blocking rule sets a category.

  Both replies are still modelled, and their texts are stated on any verdict.
- A prompt without "latest news" makes the grounding call resolve with `{}`
  (App.tsx:178), so `groundingSources` is absent. It is modelled as `None`.
- An undefined `reason` inside a template literal renders as the word
  `undefined` (App.tsx:104, 123), and `reason || '...'` (App.tsx:126) also
  falls back on an empty reason. Both are modelled as written.

## Model

| member | source | states |
|---|---|---|
| Common.FirstIndex | App.tsx:66-97 | the reported index holds, no earlier element holds, and None means no element holds |
| Common.FirstIndexIs | App.tsx:66-97 | the first element that holds is the one reported |
| Text.LowerChar | App.tsx:47 | ASCII capitals move down by 32, every other character is kept, and the result is never a capital |
| Text.Lower | App.tsx:47 | lower-casing keeps the length |
| Text.LowerChars | App.tsx:47 | lower-casing maps each character by itself |
| Text.LowerIdempotent | App.tsx:47 | lower-casing twice is lower-casing once |
| Text.LowerConcat | App.tsx:47 | lower-casing distributes over concatenation |
| Text.IsJsWhitespace | App.tsx:51-54 | the JavaScript `\s` class: WhiteSpace and LineTerminator; `SkipWhitespace` and `SkipWhitespaceExact` consume exactly its runs |
| Text.OccursAtChar | App.tsx:71 | a one-character word occurs at i exactly when that character is at i |
| Text.OccursAtHead | App.tsx:71 | an occurrence starts with the word's first character |
| Text.FindFrom | App.tsx:51 | the first occurrence at or after a position, and None exactly when there is none |
| Text.Includes | App.tsx:71-90 | `String.prototype.includes`, specified by `IncludesIff` (occurs at some position), `IncludesAt` and `IncludesExtended` |
| Text.IncludesAny | App.tsx:76 | a keyword list tested with `||`, specified by `IncludesAnyOne` and `IncludesAnyTwo` |
| Text.IncludesIff | App.tsx:71 | `includes` holds exactly when the word occurs at some position |
| Text.IncludesAt | App.tsx:71 | an occurrence anywhere makes `includes` true |
| Text.IncludesExtended | App.tsx:71 | text added around a string never removes a word it includes |
| Text.MissingCharExcludes | App.tsx:71 | a word with a character absent from the string is not included |
| Text.IncludesAnyOne | App.tsx:71 | a one-keyword list is a single `includes` |
| Text.IncludesAnyTwo | App.tsx:76 | a two-keyword list is the disjunction of the two `includes` tests |
| Text.SkipWhitespace | App.tsx:53 | `\s*` skips a maximal run of JavaScript whitespace |
| Text.SkipWhitespaceExact | App.tsx:53 | a whitespace run ended by non-whitespace is exactly what is skipped |
| Text.SkipLetters | App.tsx:52 | `[a-z]*` skips a maximal run of lower-case letters |
| Text.SkipLettersExact | App.tsx:52 | a letter run ended by a non-letter is exactly what is skipped |
| Tokenizer.Split | App.tsx:39 | one segment more than there are separators, and no segment contains the separator |
| Tokenizer.JoinSplit | App.tsx:39 | joining the segments with the separator gives back the prompt |
| Tokenizer.SplitUnique | App.tsx:39 | the segments are the only separator-free list that joins back to the prompt |
| Tokenizer.SplitCons | App.tsx:39 | a leading separator starts a new empty segment; any other character extends the first segment |
| Tokenizer.NatToString | App.tsx:39 | the index is written as decimal digits, with no leading zero |
| Tokenizer.ParseNatToString | App.tsx:39 | reading the decimal index back gives the index |
| Tokenizer.TagAll | App.tsx:39 | one token per segment |
| Tokenizer.TagAllAt | App.tsx:39 | token i is the tag of segment i numbered from the start index |
| Tokenizer.Tag | App.tsx:39 | the `[T${i}:${word}]` callback, specified by `UntagTag` (a tag determines its index and word) and `TokenShape` |
| Tokenizer.Tokenize | App.tsx:39 | the token list, specified by `TokenShape` (count and form of each token) and `DetokenizeTokenize` (nothing is lost) |
| Tokenizer.DigitRun | App.tsx:39 | the maximal run of digits at the start of a string |
| Tokenizer.DigitRunStops | App.tsx:39 | a digit run followed by a non-digit is read in full and no further |
| Tokenizer.UntagTag | App.tsx:39 | a tag determines its index and its segment |
| Tokenizer.UntagAllTagAll | App.tsx:39 | a list of tags reads back as its segments |
| Tokenizer.DetokenizeTokenize | App.tsx:39 | the prompt can be rebuilt from its tokens |
| Tokenizer.TokenShape | App.tsx:39 | one token per space plus one, and token i is `[T` i `:` segment i `]` |
| Tokenizer.EmptyPromptToken | App.tsx:39 | the empty prompt has the single token `[T0:]` |
| Tokenizer.ConsecutiveSpaces | App.tsx:39 | in any prompt, two spaces in a row leave an empty segment between them, right after the segments before them |
| Tokenizer.TwoWords | App.tsx:39 | "a b" has the tokens `[T0:a]` and `[T1:b]` |
| XssPatterns.QuoteBeforeGreaterThan | App.tsx:52 | true exactly when a quote comes before any `>` |
| XssPatterns.Patterns | App.tsx:50-56 | the five patterns of `xssPatterns`, in the order the loop tries them; `EvaluatePolicy` and `XssDetected` scan them in that order |
| XssPatterns.ScriptMatch | App.tsx:51 | the meaning of `<script\s*[^>]*>.*?<\/script>` with every sub-match explicit; `ScriptAtCorrect` proves the scanner equal to it |
| XssPatterns.HandlerMatch | App.tsx:52 | the meaning of `on[a-z]+=[\s"]*['"]?[^>]*['"]`; `HandlerAtSound`, `HandlerAtComplete` and `HandlerAtCorrect` prove the scanner equal to it |
| XssPatterns.SrcMatch | App.tsx:53 | the meaning of the tail `src\s*=\s*['"]?javascript:`; `SrcAtSound` and `SrcAtComplete` prove `SrcAt` equal to it |
| XssPatterns.SrcMatches | App.tsx:53 | some split of the text from b on matches the `src` tail; specified by `SrcAtSound` and `SrcAtComplete` |
| XssPatterns.ElementHead | App.tsx:53-54 | the meaning of `<\s*name\s+`; `ElementAttributesSound` and `ElementAttributesComplete` prove `ElementAttributes` equal to it |
| XssPatterns.ImgMatch | App.tsx:53 | the meaning of the whole img regex; `ImgAtCorrect` proves the scanner equal to it |
| XssPatterns.SvgMatch | App.tsx:54 | the meaning of `<\s*svg\s+onload=`; `SvgAtCorrect` proves the scanner equal to it |
| XssPatterns.RegexMatchesAt | App.tsx:50-55 | the regex of each pattern has a match starting at i; `MatchesAtCorrect` and `MatchesCorrect` prove the scanners equal to it |
| XssPatterns.JavascriptUrlAt | App.tsx:53 | after `=`, whitespace, an optional quote and `javascript:`; specified by `JavascriptUrlStart` and `JavascriptUrlComplete` |
| XssPatterns.SrcAt | App.tsx:53 | the scanner of the `src` tail, specified by `SrcAtSound` and `SrcAtComplete` |
| XssPatterns.ElementAttributes | App.tsx:53-54 | where the attributes of an element start, specified by `ElementAttributesSound` and `ElementAttributesComplete` |
| XssPatterns.ScriptAtCorrect | App.tsx:51 | the script scanner matches at i exactly when `<script\s*[^>]*>.*?<\/script>` does |
| XssPatterns.HandlerAtSound | App.tsx:52 | a handler found by the scanner is a match of the regex |
| XssPatterns.HandlerValueNoGreaterThan | App.tsx:52 | the attribute value up to the closing quote holds no `>` |
| XssPatterns.HandlerAtComplete | App.tsx:52 | every match of the handler regex is found by the scanner |
| XssPatterns.HandlerAtCorrect | App.tsx:52 | the handler scanner matches at i exactly when `on[a-z]+=[\s"]*['"]?[^>]*['"]` does |
| XssPatterns.JavascriptUrlStart | App.tsx:53 | where `javascript:` starts, after the optional quote |
| XssPatterns.SrcAtSound | App.tsx:53 | a `src` attribute found by the scanner matches the regex tail |
| XssPatterns.SrcAssignSkip | App.tsx:53 | the whitespace before `=` is what the scanner skips |
| XssPatterns.JavascriptUrlComplete | App.tsx:53 | whitespace, an optional quote and `javascript:` are accepted by the scanner |
| XssPatterns.SrcAtComplete | App.tsx:53 | every match of the `src` tail is found by the scanner |
| XssPatterns.SkipToLiteral | App.tsx:53 | a whitespace run ended by a letter literal is exactly what is skipped |
| XssPatterns.ElementAttributesSound | App.tsx:53-54 | the scanner's attribute start follows `<\s*name\s+` |
| XssPatterns.ElementAttributesComplete | App.tsx:53-54 | an element head followed by an attribute is found at that attribute |
| XssPatterns.ImgAtSound | App.tsx:53 | an img match found by the scanner is a match of the regex |
| XssPatterns.ImgAtComplete | App.tsx:53 | every match of the img regex is found by the scanner |
| XssPatterns.ImgAtCorrect | App.tsx:53 | the img scanner matches at i exactly when `<\s*img\s+src\s*=\s*['"]?javascript:` does |
| XssPatterns.SvgAtCorrect | App.tsx:54 | the svg scanner matches at i exactly when `<\s*svg\s+onload=` does |
| XssPatterns.MatchesAtCorrect | App.tsx:50-55 | each of the five scanners matches at i exactly when its regex does |
| XssPatterns.RegexMatchInside | App.tsx:50-55 | every match starts inside the text |
| XssPatterns.MatchesCorrect | App.tsx:50-60 | `test` is true exactly when the regex matches at some position |
| XssPatterns.NoMarkupNoMatchAt | App.tsx:50-55 | text without `<`, `=` or `:` has no match at any position |
| XssPatterns.NoMarkupNoMatch | App.tsx:50-60 | a prompt without `<`, `=` or `:` trips no pattern |
| XssPatterns.ScriptAt | App.tsx:51 | the script scanner, specified by `ScriptAtCorrect` |
| XssPatterns.HandlerAt | App.tsx:52 | the handler scanner, specified by `HandlerAtCorrect` |
| XssPatterns.ImgAt | App.tsx:53 | the img scanner, specified by `ImgAtCorrect` |
| XssPatterns.SvgAt | App.tsx:54 | the svg scanner, specified by `SvgAtCorrect` |
| XssPatterns.MatchesAt | App.tsx:50-55 | the scanner of each pattern at one position, specified by `MatchesAtCorrect` |
| XssPatterns.Matches | App.tsx:59-60 | some position starts a match, specified by `MatchesCorrect` |
| XssPatterns.Test | App.tsx:60 | `pattern.test(prompt)` with the `is` flags, specified by `MatchesCorrect` on the lower-cased prompt |
| PolicyEngine.Decide | App.tsx:42-97 | passed exactly when allowed; never modified; a reason exactly when a category; a passing category is only `policy_violation`; a failing verdict has another category |
| PolicyEngine.DecideFirst | App.tsx:66-97 | the first rule that holds decides the verdict |
| PolicyEngine.VerdictOf | App.tsx:67-95 | the verdict a rule writes: its passed flag, reason, category and action; `DecideFirst` and the rule lemmas state it for each rule |
| PolicyEngine.DefaultVerdict | App.tsx:42-45 | the initial values of the locals; `NoRuleDefault` and `DefaultVerdictIff` state when it is the verdict |
| PolicyEngine.Catalog | App.tsx:66-96 | the if/else chain as an ordered rule list; `EvaluatePolicy` is proved equal to its first match, and the rule lemmas state each entry |
| PolicyEngine.Holds | App.tsx:60-91 | the test of each rule, specified by the rule lemmas (`XssRule` to `Section8Annotated`) and `NoBlockingRule` |
| PolicyEngine.EvaluatePolicy | App.tsx:42-97 | the loop and if/else chain compute the catalog's first-match verdict |
| PolicyEngine.XssDetected | App.tsx:58-64 | some pattern tests true on the raw prompt; `XssIgnoresCase` and `XssTakesPrecedence` state what it decides |
| PolicyEngine.Evaluate | App.tsx:42-97 | the verdict of the engine, specified by the invariants of `Decide`, the rule lemmas and `DefaultVerdictIff` |
| PolicyEngine.XssRule | App.tsx:66-70 | an XSS hit blocks with the XSS reason and category |
| PolicyEngine.XssTakesPrecedence | App.tsx:58-70 | an XSS hit wins over every keyword rule |
| PolicyEngine.CommandInjectionRule | App.tsx:71-75 | "delete system files" in any case blocks as a jailbreak attempt |
| PolicyEngine.PiiRule | App.tsx:76-80 | otherwise "pincode" or "social security" blocks as PII |
| PolicyEngine.NoEarlierKeywords | App.tsx:71-80 | without those keywords the command-injection and PII rules do not hold |
| PolicyEngine.HarmfulRule | App.tsx:81-85 | otherwise "generate hate speech" blocks as harmful |
| PolicyEngine.PromptInjectionRule | App.tsx:86-90 | otherwise "ignore all previous instructions" blocks as a jailbreak attempt |
| PolicyEngine.NoBlockingRule | App.tsx:71-90 | without any blocking keyword no keyword rule holds |
| PolicyEngine.Section8Annotated | App.tsx:91-96 | the exact Section 8 phrase is allowed, with the policy-context reason and the `policy_violation` category |
| PolicyEngine.NoRuleDefault | App.tsx:42-45 | with no rule holding, the verdict is passed, allowed, with no reason and no category |
| PolicyEngine.DefaultVerdictIff | App.tsx:42-97 | the default verdict is given exactly when no rule holds |
| PolicyEngine.XssIgnoresCase | App.tsx:50-60 | the XSS scan ignores letter case |
| PolicyEngine.BlockingIgnoresCase | App.tsx:47-90 | prompts equal up to case are blocked alike, with the same verdict |
| PolicyEngine.AnnotatedIsSection8 | App.tsx:91-96 | only the Section 8 rule gives `policy_violation`: no earlier rule holds and the prompt holds the exact phrase |
| PolicyEngine.LowerLacksSection8 | App.tsx:91 | a lower-cased prompt never contains the phrase |
| PolicyEngine.Section8CaseSensitive | App.tsx:91-96 | lower-casing an annotated prompt loses the annotation and gives the default verdict |
| PolicyEngine.LowerUnmatched | App.tsx:47-91 | if no blocking rule holds, no rule at all holds on the lower-cased prompt |
| PolicyEngine.BlockedCategories | App.tsx:66-90 | a blocked verdict has the XSS, harmful, PII or jailbreak category |
| ResponseSynthesizer.Synthesize | App.tsx:100-148 | the synthesiser writes the rendered reply that `Choose` selects for the verdict |
| ResponseSynthesizer.BlockedResponse | App.tsx:101-127 | the category switch writes the refusal text of that category |
| ResponseSynthesizer.AllowedResponse | App.tsx:128-147 | the keyword chain writes the text of the answer chosen for the prompt |
| ResponseSynthesizer.RefusalFor | App.tsx:102-127 | the refusal chosen by category, specified by `PipelineRefusals` on engine verdicts |
| ResponseSynthesizer.AnswerFor | App.tsx:130-147 | the answer chosen by the keyword chain, specified by `TopicChain`, the four keyword rules, `EchoRule` and `AnswerIgnoresCase` |
| ResponseSynthesizer.TopicRules | App.tsx:130-144 | the reply keyword chain as an ordered table, specified by `TopicChain` |
| ResponseSynthesizer.FirstTopic | App.tsx:130-144 | first matching entry of the table, specified by `TopicChain` |
| ResponseSynthesizer.ChooseTopic | App.tsx:130-144 | the topic chosen by the chain, specified by `TopicChain` |
| ResponseSynthesizer.InferredDataType | App.tsx:141 | json when the prompt mentions it, else html, specified by `StructuredRule` |
| ResponseSynthesizer.Choose | App.tsx:101-147 | refusal when blocked and answer otherwise, specified by `PipelineRefusals` and `ModifiedAnsweredAsAllowed` |
| ResponseSynthesizer.RefusalText | App.tsx:103-126 | the exact refusal texts, specified by `WarningReadBack` and `UncategorisedFallback` |
| ResponseSynthesizer.AnswerText | App.tsx:131-146 | the exact answer texts, specified by `AnswerReadBack` |
| ResponseSynthesizer.Rendered | App.tsx:104-123 | `${reason}` with undefined written as `undefined`, specified by `WarningReadBack` |
| ResponseSynthesizer.ReasonOrUnspecified | App.tsx:126 | the reason, or the unspecified-policy text when the reason is undefined or empty, specified by `UncategorisedFallback` |
| ResponseSynthesizer.Render | App.tsx:100-147 | the text of every reply; `Synthesize`, `BlockedResponse` and `AllowedResponse` are proved to write it |
| ResponseSynthesizer.Respond | App.tsx:100-148 | the response text for a verdict; `Synthesize` is proved to compute it |
| ResponseSynthesizer.TopicChain | App.tsx:130-147 | the ordered keyword table is the if/else chain: greeting, weather, story, json or html, else none |
| ResponseSynthesizer.SmallTalkRule | App.tsx:130-131 | "how are you" in any case gets the greeting |
| ResponseSynthesizer.WeatherRule | App.tsx:132-133 | otherwise "weather" gets the weather reply |
| ResponseSynthesizer.StoryRule | App.tsx:134-135 | otherwise "tell me a story" gets the story |
| ResponseSynthesizer.StructuredRule | App.tsx:136-144 | otherwise "json" or "html" gets the structured reply naming json when present, else html |
| ResponseSynthesizer.EchoRule | App.tsx:145-146 | the echo is given exactly when none of the five keywords occurs, and it quotes the prompt as typed |
| ResponseSynthesizer.AnswerIgnoresCase | App.tsx:128-147 | prompts equal up to case get the same answer, except that the echo quotes each as typed |
| ResponseSynthesizer.ModifiedAnsweredAsAllowed | App.tsx:101-128 | a `modified` verdict is answered like an allowed one |
| ResponseSynthesizer.PipelineRefusals | App.tsx:101-127 | an engine verdict that blocks gets the XSS warning with the XSS reason or the harmful, PII or jailbreak refusal |
| ResponseSynthesizer.BetweenFramed | App.tsx:104 | a text framed by a head and a tail reads back as what it frames |
| ResponseSynthesizer.WarningReadBack | App.tsx:104-123 | the XSS and policy-violation warnings quote the rendered reason between their fixed head and tail |
| ResponseSynthesizer.AnswerReadBack | App.tsx:137-146 | the structured reply quotes the data type and the echo quotes the prompt between fixed head and tail |
| ResponseSynthesizer.UncategorisedFallback | App.tsx:125-126 | the uncategorised refusal quotes a non-empty reason, and otherwise names an unspecified policy |
| Grounding.LookupSpec | App.tsx:170-176 | sources exactly when "latest news" occurs at some position of the lower-cased prompt, and then the two news entries in order |
| Grounding.LookupIgnoresCase | App.tsx:170 | prompts equal up to case are grounded alike |
| Grounding.LookupExtended | App.tsx:170 | text added around a grounded prompt keeps it grounded |
| Grounding.GroundingLookup | App.tsx:170-179 | the object the grounding call resolves with, specified by `LookupSpec`, `LookupIgnoresCase` and `LookupExtended` |
| Analysis.AnalyzePrompt | App.tsx:38-159 | the record holds the prompt, its tokens, the engine's verdict, the reply for that verdict and the latency |
| Analysis.Analyze | App.tsx:38-159 | the result record; `AnalyzePrompt` is proved to build it, and `ResultShape`, `BlockedResultRefuses`, `XssResultWarns`, `Section8ResultAnswered` and `EchoResult` state its properties |
| Analysis.ResultShape | App.tsx:38-159 | the record keeps the prompt, rebuildable tokens and a consistent, never-modified verdict, and sets no grounding and no error |
| Analysis.BlockedResultRefuses | App.tsx:100-127 | a blocked prompt's reply is one of the four category refusals |
| Analysis.XssResultWarns | App.tsx:58-111 | an XSS prompt fails as `xss_payload`, and its reply quotes the XSS reason whatever keywords it also holds |
| Analysis.Section8ResultAnswered | App.tsx:91-147 | an annotated prompt passes as `policy_violation` and gets the allowed answer, not a warning |
| Analysis.EchoResult | App.tsx:145-146 | an allowed prompt with no reply keyword is echoed verbatim |

## Left out

- Timing. The `Promise`, the `setTimeout` delays, `Math.random` and
  `Date.now` are not modelled. The latency the clock measures is a parameter
  of `AnalyzePrompt`.
- The Gemini client. Constructing it, the API-key check and the error
  message it may set (App.tsx:220-235) are calls into code the model cannot
  see.
- The merge of grounding sources into the displayed result (App.tsx:247-256).
  This is React state handling. `Grounding.GroundingLookup` models the lookup
  itself; it reads only the prompt, never the verdict.
- `functionCalls`. No part of the pipeline sets this member of the result
  record, and its type belongs to the Gemini client library.
- The page components (App.tsx:185-298) and the documentation and research
  panels: presentation only.
- Unicode. `toLowerCase` is modelled on ASCII letters only, and strings are
  sequences of Unicode scalar values rather than UTF-16 code units. The echo
  (App.tsx:146) and the tokens (App.tsx:39) use the raw prompt, so they are
  unaffected. For the keyword tests, full `toLowerCase` maps a few non-ASCII
  characters onto ASCII: U+212A KELVIN SIGN becomes `k`, and U+0130 becomes
  `i` followed by U+0307. Neither can create a keyword the model misses. No
  keyword, no reply keyword and "latest news" contains `k`, and an `i` made
  from U+0130 is always followed by U+0307, while in every keyword each `i` is
  followed by an ASCII character. The regular expressions run on the raw
  prompt with the `i` flag and no `u` flag, which folds no non-ASCII
  character to ASCII, so the XSS scan is exact.
- Regular expressions are modelled as the five fixed patterns the engine
  uses, not as a general regex engine. The lazy `.*?` of the script pattern
  affects only where a match ends, not whether a match exists, and `test`
  reads only whether one exists.
- The mock delay of the grounding call (300 ms) is not modelled, with the
  rest of the timing.

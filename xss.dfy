/** The five XSS regular expressions of the policy engine, all with the flags
    `is`. Each is given twice: as the regex's meaning, with the position of
    every sub-match explicit (ghost), and as a scanning matcher; the lemmas
    prove them equal.

    Under the `i` flag without `u`, a pattern letter matches an input
    character exactly when both are the same ASCII letter up to case, and no
    non-ASCII character folds to an ASCII one. So testing a pattern with `i`
    against `prompt` is testing its lower-case form against `Lower(prompt)`,
    which is how `Test` is written. Under `s`, `.` matches every character. */
module XssPatterns {
  import opened Common
  import opened Text

  datatype Pattern =
    | ScriptElement     // <script\s*[^>]*>.*?<\/script>
    | EventHandler      // on[a-z]+=[\s"]*['"]?[^>]*['"]
    | ImgJavascriptSrc  // <\s*img\s+src\s*=\s*['"]?javascript:
    | SvgOnload         // <\s*svg\s+onload=
    | DataHtmlBase64    // data:text\/html;base64,

  /** The patterns in the order the engine tries them. */
  const Patterns: seq<Pattern> := [ScriptElement, EventHandler, ImgJavascriptSrc, SvgOnload, DataHtmlBase64]

  predicate WhitespaceRun(l: string, from: nat, to: nat) {
    from <= to <= |l| && forall m :: from <= m < to ==> IsJsWhitespace(l[m])
  }

  predicate LetterRun(l: string, from: nat, to: nat) {
    from <= to <= |l| && forall m :: from <= m < to ==> IsAsciiLowerLetter(l[m])
  }

  /** `[\s"]*` */
  predicate WhitespaceOrDoubleQuoteRun(l: string, from: nat, to: nat) {
    from <= to <= |l| && forall m :: from <= m < to ==> IsJsWhitespace(l[m]) || l[m] == '"'
  }

  /** `[^>]*` */
  predicate NoGreaterThan(l: string, from: nat, to: nat) {
    from <= to <= |l| && forall m :: from <= m < to ==> l[m] != '>'
  }

  /** `['"]?` spanning `[a, b)`. */
  predicate OptionalQuote(l: string, a: nat, b: nat) {
    b == a || (b == a + 1 && a < |l| && IsQuote(l[a]))
  }

  // ---- the regular expressions' meaning ----

  /** `<script` at i, `\s*` on [i+7, a), `[^>]*` on [a, b), `>` at b,
      `.*?` on [b+1, k), `</script>` at k. */
  ghost predicate ScriptMatch(l: string, i: nat, a: nat, b: nat, k: nat) {
    OccursAt(l, "<script", i) && WhitespaceRun(l, i + 7, a) && NoGreaterThan(l, a, b)
    && b < |l| && l[b] == '>' && b < k && OccursAt(l, "</script>", k)
  }

  /** `on` at i, `[a-z]+` on [i+2, e), `=` at e, `[\s"]*` on [e+1, a),
      `['"]?` on [a, b), `[^>]*` on [b, q), `['"]` at q. */
  ghost predicate HandlerMatch(l: string, i: nat, e: nat, a: nat, b: nat, q: nat) {
    OccursAt(l, "on", i) && i + 2 < e && LetterRun(l, i + 2, e) && e < |l| && l[e] == '='
    && WhitespaceOrDoubleQuoteRun(l, e + 1, a) && OptionalQuote(l, a, b)
    && NoGreaterThan(l, b, q) && q < |l| && IsQuote(l[q])
  }

  /** `src` at b, `\s*` on [b+3, c), `=` at c, `\s*` on [c+1, d),
      `['"]?` on [d, e), `javascript:` at e. */
  ghost predicate SrcMatch(l: string, b: nat, c: nat, d: nat, e: nat) {
    OccursAt(l, "src", b) && WhitespaceRun(l, b + 3, c) && c < |l| && l[c] == '='
    && WhitespaceRun(l, c + 1, d) && OptionalQuote(l, d, e) && OccursAt(l, "javascript:", e)
  }

  /** `<\s*` then the element name at a, then `\s+` on [a + |name|, b). */
  ghost predicate ElementHead(l: string, i: nat, name: string, a: nat, b: nat) {
    i < |l| && l[i] == '<' && WhitespaceRun(l, i + 1, a) && OccursAt(l, name, a)
    && a + |name| < b && WhitespaceRun(l, a + |name|, b)
  }

  /** `src\s*=\s*['"]?javascript:` matches from b on. */
  ghost predicate SrcMatches(l: string, b: nat) {
    exists c, d, e :: SrcMatch(l, b, c, d, e)
  }

  /** `<\s*img\s+` on [i, b), then the `src` attribute from b on. */
  ghost predicate ImgMatch(l: string, i: nat, a: nat, b: nat) {
    ElementHead(l, i, "img", a, b) && SrcMatches(l, b)
  }

  /** `<\s*svg\s+` on [i, b), `onload=` at b. */
  ghost predicate SvgMatch(l: string, i: nat, a: nat, b: nat) {
    ElementHead(l, i, "svg", a, b) && OccursAt(l, "onload=", b)
  }

  /** The regex of `p` has a match that starts at position `i` of `l`. */
  ghost predicate RegexMatchesAt(p: Pattern, l: string, i: nat) {
    match p
    case ScriptElement => exists a, b, k :: ScriptMatch(l, i, a, b, k)
    case EventHandler => exists e, a, b, q :: HandlerMatch(l, i, e, a, b, q)
    case ImgJavascriptSrc => exists a, b :: ImgMatch(l, i, a, b)
    case SvgOnload => exists a, b :: SvgMatch(l, i, a, b)
    case DataHtmlBase64 => OccursAt(l, "data:text/html;base64,", i)
  }

  // ---- the scanning matchers ----

  function ScriptAt(l: string, i: nat): bool {
    OccursAt(l, "<script", i) &&
    match FindFrom(l, ">", i + 7)
    case None => false
    case Some(b) => FindFrom(l, "</script>", b + 1).Some?
  }

  /** Some quote comes at or after `from`, before any `>`. */
  function QuoteBeforeGreaterThan(l: string, from: nat): (r: bool)
    ensures r <==> exists q :: from <= q < |l| && IsQuote(l[q]) && NoGreaterThan(l, from, q)
    decreases |l| - from
  {
    if from >= |l| then false
    else if IsQuote(l[from]) then assert NoGreaterThan(l, from, from); true
    else if l[from] == '>' then false
    else QuoteBeforeGreaterThan(l, from + 1)
  }

  function HandlerAt(l: string, i: nat): bool {
    OccursAt(l, "on", i) &&
    var e := SkipLetters(l, i + 2);
    i + 2 < e < |l| && l[e] == '=' && QuoteBeforeGreaterThan(l, e + 1)
  }

  function JavascriptUrlAt(l: string, d: nat): bool {
    OccursAt(l, "javascript:", d) || (d < |l| && IsQuote(l[d]) && OccursAt(l, "javascript:", d + 1))
  }

  function SrcAt(l: string, b: nat): bool {
    OccursAt(l, "src", b) &&
    var c := SkipWhitespace(l, b + 3);
    c < |l| && l[c] == '=' && JavascriptUrlAt(l, SkipWhitespace(l, c + 1))
  }

  /** Where the attributes begin after `<\s*name\s+` at i, if that is there. */
  function ElementAttributes(l: string, i: nat, name: string): Option<nat> {
    if i < |l| && l[i] == '<' then
      var a := SkipWhitespace(l, i + 1);
      if OccursAt(l, name, a) then
        var b := SkipWhitespace(l, a + |name|);
        if a + |name| < b then Some(b) else None
      else None
    else None
  }

  function ImgAt(l: string, i: nat): bool {
    match ElementAttributes(l, i, "img")
    case Some(b) => SrcAt(l, b)
    case None => false
  }

  function SvgAt(l: string, i: nat): bool {
    match ElementAttributes(l, i, "svg")
    case Some(b) => OccursAt(l, "onload=", b)
    case None => false
  }

  function MatchesAt(p: Pattern, l: string, i: nat): bool {
    match p
    case ScriptElement => ScriptAt(l, i)
    case EventHandler => HandlerAt(l, i)
    case ImgJavascriptSrc => ImgAt(l, i)
    case SvgOnload => SvgAt(l, i)
    case DataHtmlBase64 => OccursAt(l, "data:text/html;base64,", i)
  }

  function Matches(p: Pattern, l: string): bool {
    exists i: nat | i < |l| :: MatchesAt(p, l, i)
  }

  /** `pattern.test(prompt)`. */
  function Test(p: Pattern, prompt: string): bool {
    Matches(p, Lower(prompt))
  }

  // ---- the matchers are the regular expressions ----

  /** A whitespace run that ends where a literal starting with a letter
      begins is exactly what `SkipWhitespace` skips. */
  lemma SkipToLiteral(l: string, from: nat, to: nat, w: string)
    requires WhitespaceRun(l, from, to) && OccursAt(l, w, to)
    requires |w| > 0 && IsAsciiLowerLetter(w[0])
    ensures SkipWhitespace(l, from) == to
  {
    OccursAtHead(l, w, to);
    SkipWhitespaceExact(l, from, to);
  }

  lemma ScriptAtCorrect(l: string, i: nat)
    ensures ScriptAt(l, i) <==> exists a, b, k :: ScriptMatch(l, i, a, b, k)
  {
    if ScriptAt(l, i) {
      var b := FindFrom(l, ">", i + 7).value;
      var k := FindFrom(l, "</script>", b + 1).value;
      forall m | i + 7 <= m < b ensures l[m] != '>' { OccursAtChar(l, '>', m); }
      OccursAtChar(l, '>', b);
      assert ScriptMatch(l, i, i + 7, b, k);
    }
    if exists a, b, k :: ScriptMatch(l, i, a, b, k) {
      var a: nat, b: nat, k: nat :| ScriptMatch(l, i, a, b, k);
      OccursAtChar(l, '>', b);
      var b0 := FindFrom(l, ">", i + 7).value;
      assert b0 <= b;
      assert OccursAt(l, "</script>", k);
    }
  }

  lemma HandlerAtSound(l: string, i: nat)
    requires HandlerAt(l, i)
    ensures exists e, a, b, q :: HandlerMatch(l, i, e, a, b, q)
  {
    var e := SkipLetters(l, i + 2);
    var q :| e + 1 <= q < |l| && IsQuote(l[q]) && NoGreaterThan(l, e + 1, q);
    assert HandlerMatch(l, i, e, e + 1, e + 1, q);
  }

  /** `[\s"]*['"]?[^>]*` before the closing quote is just "no `>`". */
  lemma HandlerValueNoGreaterThan(l: string, e: nat, a: nat, b: nat, q: nat)
    requires WhitespaceOrDoubleQuoteRun(l, e, a) && OptionalQuote(l, a, b) && NoGreaterThan(l, b, q)
    ensures NoGreaterThan(l, e, q)
  {
  }

  lemma HandlerAtComplete(l: string, i: nat, e: nat, a: nat, b: nat, q: nat)
    requires HandlerMatch(l, i, e, a, b, q)
    ensures HandlerAt(l, i)
  {
    SkipLettersExact(l, i + 2, e);
    HandlerValueNoGreaterThan(l, e + 1, a, b, q);
  }

  lemma HandlerAtCorrect(l: string, i: nat)
    ensures HandlerAt(l, i) <==> exists e, a, b, q :: HandlerMatch(l, i, e, a, b, q)
  {
    if HandlerAt(l, i) { HandlerAtSound(l, i); }
    if exists e, a, b, q :: HandlerMatch(l, i, e, a, b, q) {
      var e: nat, a: nat, b: nat, q: nat :| HandlerMatch(l, i, e, a, b, q);
      HandlerAtComplete(l, i, e, a, b, q);
    }
  }

  /** Where `javascript:` starts, after the optional quote. */
  function JavascriptUrlStart(l: string, d: nat): (e: nat)
    requires JavascriptUrlAt(l, d)
    ensures OptionalQuote(l, d, e) && OccursAt(l, "javascript:", e)
  {
    if OccursAt(l, "javascript:", d) then d else d + 1
  }

  lemma SrcAtSound(l: string, b: nat)
    requires SrcAt(l, b)
    ensures SrcMatches(l, b)
  {
    var c := SkipWhitespace(l, b + 3);
    var d := SkipWhitespace(l, c + 1);
    assert SrcMatch(l, b, c, d, JavascriptUrlStart(l, d));
  }

  /** `\s*` up to `=` is what the scanner skips after `src`. */
  lemma SrcAssignSkip(l: string, b: nat, c: nat)
    requires OccursAt(l, "src", b) && WhitespaceRun(l, b + 3, c) && c < |l| && l[c] == '='
    ensures SkipWhitespace(l, b + 3) == c
  {
    SkipWhitespaceExact(l, b + 3, c);
  }

  /** `\s*['"]?javascript:` from `c` is what `JavascriptUrlAt` accepts once
      the whitespace is skipped. */
  lemma JavascriptUrlComplete(l: string, c: nat, d: nat, e: nat)
    requires WhitespaceRun(l, c, d) && OptionalQuote(l, d, e) && OccursAt(l, "javascript:", e)
    ensures JavascriptUrlAt(l, SkipWhitespace(l, c))
  {
    if e == d { OccursAtHead(l, "javascript:", d); }
    SkipWhitespaceExact(l, c, d);
  }

  lemma SrcAtComplete(l: string, b: nat, c: nat, d: nat, e: nat)
    requires SrcMatch(l, b, c, d, e)
    ensures SrcAt(l, b)
  {
    SrcAssignSkip(l, b, c);
    JavascriptUrlComplete(l, c + 1, d, e);
  }

  lemma ElementAttributesSound(l: string, i: nat, name: string)
    requires ElementAttributes(l, i, name).Some?
    ensures ElementHead(l, i, name, SkipWhitespace(l, i + 1), ElementAttributes(l, i, name).value)
  {
  }

  /** When the element head is followed by an attribute name, the scanner
      finds exactly where it starts. */
  lemma ElementAttributesComplete(l: string, i: nat, name: string, a: nat, b: nat, attr: string)
    requires ElementHead(l, i, name, a, b) && |name| > 0 && IsAsciiLowerLetter(name[0])
    requires OccursAt(l, attr, b) && |attr| > 0 && IsAsciiLowerLetter(attr[0])
    ensures ElementAttributes(l, i, name) == Some(b)
  {
    SkipToLiteral(l, i + 1, a, name);
    SkipToLiteral(l, a + |name|, b, attr);
  }

  lemma ImgAtSound(l: string, i: nat)
    requires ImgAt(l, i)
    ensures exists a, b :: ImgMatch(l, i, a, b)
  {
    var b := ElementAttributes(l, i, "img").value;
    ElementAttributesSound(l, i, "img");
    SrcAtSound(l, b);
    assert ImgMatch(l, i, SkipWhitespace(l, i + 1), b);
  }

  lemma ImgAtComplete(l: string, i: nat, a: nat, b: nat)
    requires ImgMatch(l, i, a, b)
    ensures ImgAt(l, i)
  {
    var c: nat, d: nat, e: nat :| SrcMatch(l, b, c, d, e);
    ElementAttributesComplete(l, i, "img", a, b, "src");
    SrcAtComplete(l, b, c, d, e);
  }

  lemma ImgAtCorrect(l: string, i: nat)
    ensures ImgAt(l, i) <==> exists a, b :: ImgMatch(l, i, a, b)
  {
    if ImgAt(l, i) { ImgAtSound(l, i); }
    if exists a, b :: ImgMatch(l, i, a, b) {
      var a: nat, b: nat :| ImgMatch(l, i, a, b);
      ImgAtComplete(l, i, a, b);
    }
  }

  lemma SvgAtCorrect(l: string, i: nat)
    ensures SvgAt(l, i) <==> exists a, b :: SvgMatch(l, i, a, b)
  {
    if SvgAt(l, i) {
      ElementAttributesSound(l, i, "svg");
      assert SvgMatch(l, i, SkipWhitespace(l, i + 1), ElementAttributes(l, i, "svg").value);
    }
    if exists a, b :: SvgMatch(l, i, a, b) {
      var a: nat, b: nat :| SvgMatch(l, i, a, b);
      ElementAttributesComplete(l, i, "svg", a, b, "onload=");
    }
  }

  /** Each scanner finds a match at `i` exactly when its regex has one there. */
  lemma MatchesAtCorrect(p: Pattern, l: string, i: nat)
    ensures MatchesAt(p, l, i) <==> RegexMatchesAt(p, l, i)
  {
    match p
    case ScriptElement => ScriptAtCorrect(l, i);
    case EventHandler => HandlerAtCorrect(l, i);
    case ImgJavascriptSrc => ImgAtCorrect(l, i);
    case SvgOnload => SvgAtCorrect(l, i);
    case DataHtmlBase64 =>
  }

  /** Every match of every pattern starts inside the text. */
  lemma RegexMatchInside(p: Pattern, l: string, i: nat)
    requires RegexMatchesAt(p, l, i)
    ensures i < |l|
  {
  }

  /** `Matches` is the regex's `test`: some position starts a match. */
  lemma MatchesCorrect(p: Pattern, l: string)
    ensures Matches(p, l) <==> exists i: nat :: RegexMatchesAt(p, l, i)
  {
    forall i: nat ensures MatchesAt(p, l, i) <==> RegexMatchesAt(p, l, i) {
      MatchesAtCorrect(p, l, i);
    }
    if exists i: nat :: RegexMatchesAt(p, l, i) {
      var i: nat :| RegexMatchesAt(p, l, i);
      RegexMatchInside(p, l, i);
    }
  }

  /** A lower-cased text without `<`, `=` or `:` matches no pattern: the
      element patterns need `<`, the event handler `=`, the data URI `:`. */
  lemma NoMarkupNoMatchAt(p: Pattern, l: string, i: nat)
    requires forall m :: 0 <= m < |l| ==> l[m] != '<' && l[m] != '=' && l[m] != ':'
    ensures !MatchesAt(p, l, i)
  {
    match p
    case ScriptElement =>
      if OccursAt(l, "<script", i) { OccursAtHead(l, "<script", i); }
    case EventHandler =>
    case ImgJavascriptSrc =>
    case SvgOnload =>
    case DataHtmlBase64 =>
      var w := "data:text/html;base64,";
      if i + |w| <= |l| { assert l[i..i + |w|][4] != w[4]; }
  }

  lemma NoMarkupNoMatch(p: Pattern, prompt: string)
    requires forall m :: 0 <= m < |prompt| ==> prompt[m] != '<' && prompt[m] != '=' && prompt[m] != ':'
    ensures !Test(p, prompt)
  {
    var l := Lower(prompt);
    LowerChars(prompt);
    forall i: nat | i < |l| ensures !MatchesAt(p, l, i) {
      NoMarkupNoMatchAt(p, l, i);
    }
  }
}

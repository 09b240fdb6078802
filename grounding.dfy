/** The keyword lookup of the mock grounding call: a prompt that mentions the
    latest news is grounded on two fixed sources, any other prompt on none. */
module Grounding {
  import opened Common
  import opened Text

  datatype GroundingSource = GroundingSource(uri: string, title: string)

  const NewsKeyword := "latest news"

  const NewsSources: seq<GroundingSource> := [
    GroundingSource("https://example.com/news1", "Recent Tech Breakthroughs"),
    GroundingSource("https://example.com/news2", "Global Market Update")
  ]

  /** The object the mock call resolves with: `Some(sources)` for
      `{ groundingSources: sources }`, `None` for the empty object. The
      lookup reads the prompt alone; no verdict is consulted. */
  function GroundingLookup(prompt: string): Option<seq<GroundingSource>> {
    if Includes(Lower(prompt), NewsKeyword) then Some(NewsSources) else None
  }

  /** Sources are returned exactly when "latest news" occurs somewhere in the
      lower-cased prompt, and they are then the two news entries, in order. */
  lemma LookupSpec(prompt: string)
    ensures GroundingLookup(prompt).Some? <==>
      exists i: nat :: OccursAt(Lower(prompt), "latest news", i)
    ensures GroundingLookup(prompt).Some? ==> GroundingLookup(prompt).value == [
      GroundingSource("https://example.com/news1", "Recent Tech Breakthroughs"),
      GroundingSource("https://example.com/news2", "Global Market Update")]
  {
    IncludesIff(Lower(prompt), NewsKeyword);
  }

  /** Letter case is irrelevant: prompts that agree once lower-cased are
      grounded alike, and so is a prompt and its lower-cased form. */
  lemma LookupIgnoresCase(p: string, q: string)
    requires Lower(p) == Lower(q)
    ensures GroundingLookup(p) == GroundingLookup(q)
    ensures GroundingLookup(Lower(p)) == GroundingLookup(p)
  {
    LowerIdempotent(p);
  }

  /** Wrapping a grounded prompt in further text keeps it grounded. */
  lemma {:induction false} LookupExtended(a: string, prompt: string, b: string)
    requires GroundingLookup(prompt).Some?
    ensures GroundingLookup(a + prompt + b) == GroundingLookup(prompt)
  {
    LowerConcat(a, prompt);
    LowerConcat(a + prompt, b);
    IncludesExtended(Lower(a), Lower(prompt), Lower(b), NewsKeyword);
  }
}

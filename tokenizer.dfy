/** The tokenizer of `analyzePrompt`: `prompt.split(' ')` followed by tagging
    segment `i` as `[T<i>:<segment>]`. Tokens are display artefacts only; the
    policy engine never reads them. */
module Tokenizer {
  import opened Common

  function CountChar(s: string, c: char): nat
  {
    if s == [] then 0 else (if s[0] == c then 1 else 0) + CountChar(s[1..], c)
  }

  /** `Array.prototype.join` with a one-character separator. */
  function Join(parts: seq<string>, sep: char): string
  {
    if |parts| == 0 then []
    else if |parts| == 1 then parts[0]
    else parts[0] + [sep] + Join(parts[1..], sep)
  }

  /** `String.prototype.split` with a one-character separator: the maximal
      separator-free segments, empty ones included. */
  function Split(s: string, sep: char): (parts: seq<string>)
    ensures |parts| == CountChar(s, sep) + 1
    ensures forall i :: 0 <= i < |parts| ==> sep !in parts[i]
  {
    if s == [] then [[]]
    else
      var rest := Split(s[1..], sep);
      if s[0] == sep then [[]] + rest
      else [[s[0]] + rest[0]] + rest[1..]
  }

  /** Joining the segments with the separator gives back the input. */
  lemma {:induction false} JoinSplit(s: string, sep: char)
    ensures Join(Split(s, sep), sep) == s
    decreases |s|
  {
    if s != [] {
      var rest := Split(s[1..], sep);
      JoinSplit(s[1..], sep);
      if s[0] == sep {
        assert Split(s, sep)[1..] == rest;
        assert s == [sep] + s[1..];
      } else if |rest| == 1 {
        assert s == [s[0]] + s[1..];
      } else {
        var parts := Split(s, sep);
        assert parts[1..] == rest[1..];
        assert Join(rest, sep) == rest[0] + [sep] + Join(rest[1..], sep);
        assert s == [s[0]] + s[1..];
      }
    }
  }

  /** The segments are the only separator-free list that joins back to `s`. */
  lemma {:induction false} SplitUnique(s: string, sep: char, parts: seq<string>)
    requires |parts| >= 1
    requires forall i :: 0 <= i < |parts| ==> sep !in parts[i]
    requires Join(parts, sep) == s
    ensures parts == Split(s, sep)
    decreases |s|
  {
    if |parts| == 1 {
      if s != [] {
        assert s[0] != sep by { assert s[0] == parts[0][0]; }
        var tail := [parts[0][1..]];
        assert Join(tail, sep) == s[1..];
        SplitUnique(s[1..], sep, tail);
        assert parts[0] == [s[0]] + tail[0];
      }
    } else if parts[0] == [] {
      assert s == [sep] + Join(parts[1..], sep);
      assert s[1..] == Join(parts[1..], sep);
      SplitUnique(s[1..], sep, parts[1..]);
      assert parts == [[]] + parts[1..];
    } else {
      var head := parts[0];
      assert s[0] == head[0];
      var shorter := [head[1..]] + parts[1..];
      assert shorter[1..] == parts[1..];
      assert Join(shorter, sep) == s[1..] by {
        assert s == head + [sep] + Join(parts[1..], sep);
        assert head == [head[0]] + head[1..];
      }
      assert forall i :: 0 <= i < |shorter| ==> sep !in shorter[i] by {
        assert forall i :: 1 <= i < |shorter| ==> shorter[i] == parts[i];
      }
      SplitUnique(s[1..], sep, shorter);
      assert head == [s[0]] + shorter[0];
      assert parts == [head] + parts[1..];
    }
  }

  predicate IsDigit(c: char) { '0' <= c <= '9' }

  function DigitChar(d: nat): (c: char)
    requires d < 10
    ensures IsDigit(c)
  {
    ('0' as int + d) as char
  }

  function DigitValue(c: char): nat
    requires IsDigit(c)
  {
    c as int - '0' as int
  }

  /** The decimal form of a non-negative integer, as a template literal
      renders it: at least one digit, no leading zero. */
  function NatToString(n: nat): (r: string)
    ensures |r| >= 1
    ensures forall i :: 0 <= i < |r| ==> IsDigit(r[i])
    ensures r[0] == '0' ==> n == 0 && |r| == 1
  {
    if n < 10 then [DigitChar(n)] else NatToString(n / 10) + [DigitChar(n % 10)]
  }

  function ParseDigits(ds: string): nat
    requires forall i :: 0 <= i < |ds| ==> IsDigit(ds[i])
  {
    if ds == [] then 0 else 10 * ParseDigits(ds[..|ds| - 1]) + DigitValue(ds[|ds| - 1])
  }

  lemma {:induction false} ParseNatToString(n: nat)
    ensures ParseDigits(NatToString(n)) == n
  {
    if n >= 10 {
      var r := NatToString(n);
      ParseNatToString(n / 10);
      assert r[..|r| - 1] == NatToString(n / 10);
    }
  }

  /** The tag of segment `i`. */
  function Tag(i: nat, word: string): string
  {
    "[T" + NatToString(i) + ":" + word + "]"
  }

  /** Tags `parts`, numbering them from `from`. */
  function TagAll(parts: seq<string>, from: nat): (tokens: seq<string>)
    ensures |tokens| == |parts|
  {
    if parts == [] then [] else [Tag(from, parts[0])] + TagAll(parts[1..], from + 1)
  }

  /** `prompt.split(' ').map((word, i) => `[T${i}:${word}]`)`. */
  function Tokenize(prompt: string): seq<string>
  {
    TagAll(Split(prompt, ' '), 0)
  }

  /** Length of the run of digits at the start of `s`. */
  function DigitRun(s: string): (n: nat)
    ensures n <= |s| && forall i :: 0 <= i < n ==> IsDigit(s[i])
    ensures n < |s| ==> !IsDigit(s[n])
  {
    if s == [] || !IsDigit(s[0]) then 0 else 1 + DigitRun(s[1..])
  }

  /** Reads a tag back as its index and segment. */
  function Untag(t: string): Option<(nat, string)>
  {
    if |t| < 3 || t[..2] != "[T" || t[|t| - 1] != ']' then None
    else
      var body := t[2..|t| - 1];
      var d := DigitRun(body);
      if d == 0 || d == |body| || body[d] != ':' then None
      else Some((ParseDigits(body[..d]), body[d + 1..]))
  }

  lemma {:induction false} DigitRunStops(ds: string, rest: string)
    requires forall i :: 0 <= i < |ds| ==> IsDigit(ds[i])
    requires rest != [] && !IsDigit(rest[0])
    ensures DigitRun(ds + rest) == |ds|
    decreases |ds|
  {
    var t := ds + rest;
    if ds == [] {
      assert t == rest;
    } else {
      assert t[0] == ds[0];
      assert t[1..] == ds[1..] + rest;
      DigitRunStops(ds[1..], rest);
    }
  }

  /** A tag determines its index and its segment. */
  lemma UntagTag(i: nat, word: string)
    ensures Untag(Tag(i, word)) == Some((i, word))
  {
    var t := Tag(i, word);
    var digits := NatToString(i);
    var body := t[2..|t| - 1];
    assert t[..2] == "[T";
    assert body == digits + (":" + word);
    DigitRunStops(digits, ":" + word);
    assert body[..|digits|] == digits;
    assert body[|digits| + 1..] == word;
    ParseNatToString(i);
  }

  /** Reads back a list of tags numbered from `from`. */
  function UntagAll(tokens: seq<string>, from: nat): Option<seq<string>>
  {
    if tokens == [] then Some([])
    else match Untag(tokens[0])
      case Some((k, word)) =>
        if k != from then None
        else (match UntagAll(tokens[1..], from + 1)
          case Some(words) => Some([word] + words)
          case None => None)
      case None => None
  }

  lemma {:induction false} UntagAllTagAll(parts: seq<string>, from: nat)
    ensures UntagAll(TagAll(parts, from), from) == Some(parts)
  {
    if parts != [] {
      var tokens := TagAll(parts, from);
      UntagTag(from, parts[0]);
      assert tokens[1..] == TagAll(parts[1..], from + 1);
      UntagAllTagAll(parts[1..], from + 1);
      assert parts == [parts[0]] + parts[1..];
    }
  }

  /** Recovers the prompt from its token list. */
  function Detokenize(tokens: seq<string>): Option<string>
  {
    match UntagAll(tokens, 0)
    case Some(words) => Some(Join(words, ' '))
    case None => None
  }

  /** Nothing is lost by tokenizing: the tags give back the prompt. */
  lemma DetokenizeTokenize(prompt: string)
    ensures Detokenize(Tokenize(prompt)) == Some(prompt)
  {
    UntagAllTagAll(Split(prompt, ' '), 0);
    JoinSplit(prompt, ' ');
  }

  lemma {:induction false} TagAllAt(parts: seq<string>, from: nat, i: nat)
    requires i < |parts|
    ensures TagAll(parts, from)[i] == Tag(from + i, parts[i])
  {
    if i > 0 { TagAllAt(parts[1..], from + 1, i - 1); }
  }

  /** One token per space-separated segment, and token `i` is the tag of
      segment `i`. */
  lemma TokenShape(prompt: string, i: nat)
    requires i < |Split(prompt, ' ')|
    ensures |Tokenize(prompt)| == CountChar(prompt, ' ') + 1
    ensures Tokenize(prompt)[i] == "[T" + NatToString(i) + ":" + Split(prompt, ' ')[i] + "]"
  {
    TagAllAt(Split(prompt, ' '), 0, i);
  }

  lemma SplitCons(c: char, s: string, sep: char)
    ensures Split([c] + s, sep) == if c == sep then [[]] + Split(s, sep)
                                   else [[c] + Split(s, sep)[0]] + Split(s, sep)[1..]
  {
    assert ([c] + s)[1..] == s;
  }

  /** Splitting "" yields one empty segment, so "" has the single token `[T0:]`. */
  lemma EmptyPromptToken()
    ensures Tokenize("") == ["[T0:]"]
  {
    assert Split("", ' ') == [""];
    assert NatToString(0) == "0";
    assert Tag(0, "") == "[T0:]";
    assert TagAll([""], 0) == [Tag(0, "")];
  }

  /** Two spaces in a row leave an empty segment between them: after the
      segments of `x`, the segment between the two spaces is empty. */
  lemma {:induction false} ConsecutiveSpaces(x: string, y: string)
    ensures CountChar(x, ' ') + 1 < |Split(x + "  " + y, ' ')|
    ensures Split(x + "  " + y, ' ')[CountChar(x, ' ') + 1] == ""
    decreases |x|
  {
    if x == [] {
      assert x + "  " + y == [' '] + ([' '] + y);
      SplitCons(' ', [' '] + y, ' ');
      SplitCons(' ', y, ' ');
    } else {
      var t := x[1..] + "  " + y;
      assert x + "  " + y == [x[0]] + t;
      ConsecutiveSpaces(x[1..], y);
      SplitCons(x[0], t, ' ');
    }
  }

  lemma TwoWords()
    ensures Tokenize("a b") == ["[T0:a]", "[T1:b]"]
  {
    assert Split("", ' ') == [""];
    SplitCons('b', "", ' ');
    assert ['b'] + "" == "b" && [""][1..] == [];
    assert Split("b", ' ') == ["b"];
    SplitCons(' ', "b", ' ');
    assert Split(" b", ' ') == ["", "b"];
    SplitCons('a', " b", ' ');
    assert ['a'] + " b" == "a b" && ['a'] + "" == "a";
    assert Split("a b", ' ') == ["a", "b"];
    assert NatToString(0) == "0" && NatToString(1) == "1";
    assert Tag(0, "a") == "[T0:a]" && Tag(1, "b") == "[T1:b]";
    assert TagAll(["b"], 1) == [Tag(1, "b")];
    assert TagAll(["a", "b"], 0) == [Tag(0, "a")] + TagAll(["b"], 1);
  }
}

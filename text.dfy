/** Option and a generic first-match search, shared by the rule catalog and
    the reply table. */
module Common {

  datatype Option<+T> = None | Some(value: T)

  /** Index of the first element of `xs` that satisfies `P`, if any. */
  function FirstIndex<T>(xs: seq<T>, P: T -> bool): (r: Option<nat>)
    ensures r.Some? ==> r.value < |xs| && P(xs[r.value])
    ensures r.Some? ==> forall j :: 0 <= j < r.value ==> !P(xs[j])
    ensures r.None? <==> forall j :: 0 <= j < |xs| ==> !P(xs[j])
  {
    if xs == [] then None
    else if P(xs[0]) then Some(0)
    else match FirstIndex(xs[1..], P)
      case None => None
      case Some(k) => Some(k + 1)
  }

  /** The first element satisfying `P` is the one `FirstIndex` reports. */
  lemma FirstIndexIs<T>(xs: seq<T>, P: T -> bool, k: nat)
    requires k < |xs| && P(xs[k])
    requires forall j :: 0 <= j < k ==> !P(xs[j])
    ensures FirstIndex(xs, P) == Some(k)
  {
    var r := FirstIndex(xs, P);
    assert r.Some?;
  }
}

/** Character classes, ASCII lower-casing and substring search: the parts of
    JavaScript's `String` and `RegExp` behaviour that the pipeline relies on. */
module Text {
  import opened Common

  predicate IsAsciiUpper(c: char) { 'A' <= c <= 'Z' }

  predicate IsAsciiLowerLetter(c: char) { 'a' <= c <= 'z' }

  /** The characters of the class `\s` in a JavaScript regular expression:
      WhiteSpace (tab, vertical tab, form feed, space, no-break space, the
      byte-order mark and the other space separators) and LineTerminator. */
  predicate IsJsWhitespace(c: char) {
    var n := c as int;
    n == 0x09 || n == 0x0A || n == 0x0B || n == 0x0C || n == 0x0D || n == 0x20
    || n == 0xA0 || n == 0x1680 || (0x2000 <= n <= 0x200A)
    || n == 0x2028 || n == 0x2029 || n == 0x202F || n == 0x205F
    || n == 0x3000 || n == 0xFEFF
  }

  predicate IsQuote(c: char) { c == '\'' || c == '"' }

  function LowerChar(c: char): (d: char)
    ensures IsAsciiUpper(c) ==> d as int == c as int + 32
    ensures !IsAsciiUpper(c) ==> d == c
    ensures !IsAsciiUpper(d)
  {
    if IsAsciiUpper(c) then (c as int + 32) as char else c
  }

  /** `toLowerCase`, restricted to the ASCII letters. */
  function Lower(s: string): (r: string)
    ensures |r| == |s|
  {
    if s == [] then [] else [LowerChar(s[0])] + Lower(s[1..])
  }

  /** `Lower` maps each character by itself. */
  lemma {:induction false} LowerChars(s: string)
    ensures forall i :: 0 <= i < |s| ==> Lower(s)[i] == LowerChar(s[i])
  {
    if s != [] {
      LowerChars(s[1..]);
      assert forall i :: 1 <= i < |s| ==> Lower(s)[i] == Lower(s[1..])[i - 1];
    }
  }

  lemma {:induction false} LowerIdempotent(s: string)
    ensures Lower(Lower(s)) == Lower(s)
  {
    var l := Lower(s);
    LowerChars(s);
    LowerChars(l);
    assert forall i :: 0 <= i < |l| ==> LowerChar(l[i]) == l[i];
  }

  lemma {:induction false} LowerConcat(a: string, b: string)
    ensures Lower(a + b) == Lower(a) + Lower(b)
  {
    var l, r := Lower(a + b), Lower(a) + Lower(b);
    LowerChars(a + b);
    LowerChars(a);
    LowerChars(b);
    assert |l| == |r|;
    forall i | 0 <= i < |l| ensures l[i] == r[i] {
      if i < |a| { assert (a + b)[i] == a[i]; } else { assert (a + b)[i] == b[i - |a|]; }
    }
  }

  /** `w` occurs in `s` starting at position `i`. */
  predicate OccursAt(s: string, w: string, i: nat) {
    i + |w| <= |s| && s[i..i + |w|] == w
  }

  lemma OccursAtChar(s: string, c: char, i: nat)
    ensures OccursAt(s, [c], i) <==> i < |s| && s[i] == c
  {
    if i < |s| { assert s[i..i + 1] == [s[i]]; }
  }

  lemma OccursAtHead(s: string, w: string, i: nat)
    requires OccursAt(s, w, i) && |w| > 0
    ensures s[i] == w[0]
  {
    assert s[i..i + |w|][0] == s[i];
  }

  /** The first occurrence of `w` in `s` at or after `from`. */
  function FindFrom(s: string, w: string, from: nat): (r: Option<nat>)
    ensures r.Some? ==> from <= r.value && OccursAt(s, w, r.value)
    ensures r.Some? ==> forall j :: from <= j < r.value ==> !OccursAt(s, w, j)
    ensures r.None? <==> forall j :: from <= j ==> !OccursAt(s, w, j)
    decreases |s| - from
  {
    if from + |w| > |s| then None
    else if s[from..from + |w|] == w then assert OccursAt(s, w, from); Some(from)
    else FindFrom(s, w, from + 1)
  }

  /** `String.prototype.includes`. */
  function Includes(s: string, w: string): bool
    decreases |s|
  {
    |w| <= |s| && (s[..|w|] == w || Includes(s[1..], w))
  }

  lemma SliceOfSuffix(s: string, i: nat, n: nat)
    requires 1 + i + n <= |s|
    ensures s[1..][i..i + n] == s[i + 1..i + 1 + n]
  {
    var u, v := s[1..][i..i + n], s[i + 1..i + 1 + n];
    assert |u| == |v|;
    forall k | 0 <= k < n ensures u[k] == v[k] { }
  }

  /** `Includes` is "occurs somewhere". */
  lemma {:induction false} IncludesIff(s: string, w: string)
    ensures Includes(s, w) <==> exists i: nat :: OccursAt(s, w, i)
    decreases |s|
  {
    if |w| <= |s| && s != [] {
      IncludesIff(s[1..], w);
      assert OccursAt(s, w, 0) <==> s[..|w|] == w;
      forall i: nat ensures OccursAt(s[1..], w, i) <==> OccursAt(s, w, i + 1) {
        if i + 1 + |w| <= |s| { SliceOfSuffix(s, i, |w|); }
      }
      if exists i: nat :: OccursAt(s, w, i) {
        var i: nat :| OccursAt(s, w, i);
        if i > 0 { assert OccursAt(s[1..], w, i - 1); }
      }
    } else if |w| <= |s| {
      assert OccursAt(s, w, 0);
    }
  }

  lemma IncludesAt(s: string, w: string, i: nat)
    requires OccursAt(s, w, i)
    ensures Includes(s, w)
  {
    IncludesIff(s, w);
  }

  /** Text around an occurrence never removes it. */
  lemma {:induction false} IncludesExtended(a: string, s: string, b: string, w: string)
    requires Includes(s, w)
    ensures Includes(a + s + b, w)
  {
    IncludesIff(s, w);
    var i: nat :| OccursAt(s, w, i);
    var t := a + s + b;
    assert t[|a| + i..|a| + i + |w|] == s[i..i + |w|];
    IncludesAt(t, w, |a| + i);
  }

  /** A character of `w` that never appears in `s` keeps `w` out of `s`. */
  lemma {:induction false} MissingCharExcludes(s: string, w: string, k: nat)
    requires k < |w| && forall i :: 0 <= i < |s| ==> s[i] != w[k]
    ensures !Includes(s, w)
  {
    forall i: nat ensures !OccursAt(s, w, i) {
      if i + |w| <= |s| { assert s[i..i + |w|][k] != w[k]; }
    }
    IncludesIff(s, w);
  }

  /** `s.includes(keywords[0]) || s.includes(keywords[1]) || ...` */
  function IncludesAny(s: string, keywords: seq<string>): bool
    decreases |keywords|
  {
    |keywords| > 0 && (Includes(s, keywords[0]) || IncludesAny(s, keywords[1..]))
  }

  lemma IncludesAnyOne(s: string, a: string)
    ensures IncludesAny(s, [a]) == Includes(s, a)
  {
    assert [a][1..] == [];
  }

  lemma IncludesAnyTwo(s: string, a: string, b: string)
    ensures IncludesAny(s, [a, b]) == (Includes(s, a) || Includes(s, b))
  {
    assert [a, b][1..] == [b];
    IncludesAnyOne(s, b);
  }

  /** First position at or after `from` that is not `\s`. */
  function SkipWhitespace(s: string, from: nat): (r: nat)
    requires from <= |s|
    ensures from <= r <= |s|
    ensures forall m :: from <= m < r ==> IsJsWhitespace(s[m])
    ensures r < |s| ==> !IsJsWhitespace(s[r])
    decreases |s| - from
  {
    if from == |s| || !IsJsWhitespace(s[from]) then from else SkipWhitespace(s, from + 1)
  }

  /** A whitespace run ended by a non-whitespace character (or the end) is
      exactly what `SkipWhitespace` skips. */
  lemma {:induction false} SkipWhitespaceExact(s: string, from: nat, to: nat)
    requires from <= to <= |s|
    requires forall m :: from <= m < to ==> IsJsWhitespace(s[m])
    requires to < |s| ==> !IsJsWhitespace(s[to])
    ensures SkipWhitespace(s, from) == to
    decreases |s| - from
  {
    if from < to { SkipWhitespaceExact(s, from + 1, to); }
  }

  /** First position at or after `from` that is not an ASCII lower-case letter. */
  function SkipLetters(s: string, from: nat): (r: nat)
    requires from <= |s|
    ensures from <= r <= |s|
    ensures forall m :: from <= m < r ==> IsAsciiLowerLetter(s[m])
    ensures r < |s| ==> !IsAsciiLowerLetter(s[r])
    decreases |s| - from
  {
    if from == |s| || !IsAsciiLowerLetter(s[from]) then from else SkipLetters(s, from + 1)
  }

  lemma {:induction false} SkipLettersExact(s: string, from: nat, to: nat)
    requires from <= to <= |s|
    requires forall m :: from <= m < to ==> IsAsciiLowerLetter(s[m])
    requires to < |s| ==> !IsAsciiLowerLetter(s[to])
    ensures SkipLetters(s, from) == to
    decreases |s| - from
  {
    if from < to { SkipLettersExact(s, from + 1, to); }
  }
}

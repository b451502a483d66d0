/** The Python string builtins the modelled code relies on: str.split() with
    no separator, str.strip(), str.lower(), the `in` substring test and the
    `string.punctuation` set. */
module Text {

  /** The characters for which Python's str.isspace() holds; str.split() and
      str.strip() without arguments separate and trim on exactly these. */
  predicate IsSpace(c: char) {
    || c == ' '
    || '\t' <= c <= '\r'
    || '\U{1c}' <= c <= '\U{1f}'
    || c == '\U{85}' || c == '\U{a0}' || c == '\U{1680}'
    || '\U{2000}' <= c <= '\U{200a}'
    || c == '\U{2028}' || c == '\U{2029}' || c == '\U{202f}' || c == '\U{205f}' || c == '\U{3000}'
  }

  /** Python's `string.punctuation`: the 32 ASCII punctuation characters. */
  predicate IsPunctuation(c: char) {
    || '!' <= c <= '/'
    || ':' <= c <= '@'
    || '[' <= c <= '`'
    || '{' <= c <= '~'
  }

  /** The range test above is exactly the 32 characters of `string.punctuation`. */
  lemma PunctuationIsStringPunctuation(c: char)
    ensures IsPunctuation(c) <==> c in "!\"#$%&'()*+,-./:;<=>?@[\\]^_`{|}~"
  {
  }

  predicate NoSpace(s: string) {
    forall i | 0 <= i < |s| :: !IsSpace(s[i])
  }

  function LowerChar(c: char): char {
    if 'A' <= c <= 'Z' then (c as int + 32) as char else c
  }

  /** Python's str.lower(), restricted to the ASCII letters. */
  function Lower(s: string): string {
    seq(|s|, i requires 0 <= i < |s| => LowerChar(s[i]))
  }

  /** Text without ASCII capitals is its own lowercase form. */
  lemma LowerOfLowercase(s: string)
    requires forall i | 0 <= i < |s| :: !('A' <= s[i] <= 'Z')
    ensures Lower(s) == s
  {
  }

  lemma LowerAppend(a: string, b: string)
    ensures Lower(a + b) == Lower(a) + Lower(b)
  {
    assert forall i | 0 <= i < |a + b| :: Lower(a + b)[i] == (Lower(a) + Lower(b))[i];
  }

  /** Lowering a character never turns a space into a non-space or back. */
  lemma LowerKeepsSpaces(s: string)
    ensures forall i | 0 <= i < |s| :: IsSpace(Lower(s)[i]) == IsSpace(s[i])
    ensures NoSpace(s) ==> NoSpace(Lower(s))
  {
  }

  // ---------------------------------------------------------------------
  // str.split()

  /** Length of the run of non-whitespace characters that starts `s`. */
  function WordLength(s: string): (n: nat)
    ensures n <= |s|
    ensures s != [] && !IsSpace(s[0]) ==> n >= 1
  {
    if s == [] || IsSpace(s[0]) then 0 else 1 + WordLength(s[1..])
  }

  /** The run is free of whitespace and stops at whitespace or at the end. */
  lemma {:induction false} WordLengthIsRun(s: string)
    ensures NoSpace(s[..WordLength(s)])
    ensures WordLength(s) < |s| ==> IsSpace(s[WordLength(s)])
  {
    if s != [] && !IsSpace(s[0]) {
      WordLengthIsRun(s[1..]);
      var m := WordLength(s[1..]);
      assert s[..1 + m] == [s[0]] + s[1..][..m];
    }
  }

  /** Python's str.split() with no separator: the maximal runs of
      non-whitespace characters of `s`, in order. */
  function Words(s: string): (ws: seq<string>)
    ensures |ws| <= |s|
    decreases |s|
  {
    if s == [] then []
    else if IsSpace(s[0]) then Words(s[1..])
    else
      var n := WordLength(s);
      [s[..n]] + Words(s[n..])
  }

  /** Every word is non-empty and free of whitespace. */
  lemma {:induction false} WordsAreRuns(s: string)
    ensures forall i | 0 <= i < |Words(s)| :: Words(s)[i] != [] && NoSpace(Words(s)[i])
    decreases |s|
  {
    if s != [] {
      if IsSpace(s[0]) {
        WordsAreRuns(s[1..]);
      } else {
        WordLengthIsRun(s);
        WordsAreRuns(s[WordLength(s)..]);
      }
    }
  }

  lemma {:induction false} WordLengthOfWord(w: string)
    requires NoSpace(w)
    ensures WordLength(w) == |w|
  {
    if w != [] {
      WordLengthOfWord(w[1..]);
    }
  }

  /** The first word of `a` is also the first word of `a + t` when it ends
      inside `a`, or when `t` starts with whitespace. */
  lemma {:induction false} WordLengthExtend(a: string, t: string)
    requires WordLength(a) < |a| || t == [] || IsSpace(t[0])
    ensures WordLength(a + t) == WordLength(a)
  {
    if a != [] && !IsSpace(a[0]) {
      assert (a + t)[1..] == a[1..] + t;
      WordLengthExtend(a[1..], t);
    }
  }

  /** A non-empty string without whitespace is one word. */
  lemma WordsOfWord(w: string)
    requires w != [] && NoSpace(w)
    ensures Words(w) == [w]
  {
    WordLengthOfWord(w);
    assert w[..|w|] == w;
    assert w[|w|..] == [];
  }

  /** A string made of whitespace only has no words. */
  lemma {:induction false} WordsOfBlank(s: string)
    requires forall i | 0 <= i < |s| :: IsSpace(s[i])
    ensures Words(s) == []
  {
    if s != [] {
      WordsOfBlank(s[1..]);
    }
  }

  /** Splitting at a whitespace character: the words of `a`, then the words
      of `b`, order and repetitions kept. */
  lemma {:induction false} WordsAroundSpace(a: string, c: char, b: string)
    requires IsSpace(c)
    ensures Words(a + [c] + b) == Words(a) + Words(b)
    decreases |a|
  {
    var s := a + [c] + b;
    if a == [] {
      assert s[0] == c && s[1..] == b;
    } else if IsSpace(a[0]) {
      assert s[0] == a[0];
      assert s[1..] == a[1..] + [c] + b;
      WordsAroundSpace(a[1..], c, b);
    } else {
      assert s[0] == a[0];
      assert s == a + ([c] + b);
      WordLengthExtend(a, [c] + b);
      var n := WordLength(a);
      assert s[..n] == a[..n];
      assert s[n..] == a[n..] + [c] + b;
      WordsAroundSpace(a[n..], c, b);
      calc {
        Words(s);
        [s[..n]] + Words(s[n..]);
        [a[..n]] + (Words(a[n..]) + Words(b));
        ([a[..n]] + Words(a[n..])) + Words(b);
        Words(a) + Words(b);
      }
    }
  }

  // ---------------------------------------------------------------------
  // str.strip(chars)

  /** Number of leading characters of `s` that `drop` selects. */
  function LeadingCount(s: string, drop: char -> bool): (n: nat)
    ensures n <= |s|
  {
    if s == [] || !drop(s[0]) then 0 else 1 + LeadingCount(s[1..], drop)
  }

  /** Number of trailing characters of `s` that `drop` selects. */
  function TrailingCount(s: string, drop: char -> bool): (n: nat)
    ensures n <= |s|
  {
    if s == [] || !drop(s[|s| - 1]) then 0 else 1 + TrailingCount(s[..|s| - 1], drop)
  }

  lemma {:induction false} LeadingCountIsRun(s: string, drop: char -> bool)
    ensures forall i | 0 <= i < LeadingCount(s, drop) :: drop(s[i])
    ensures LeadingCount(s, drop) < |s| ==> !drop(s[LeadingCount(s, drop)])
  {
    if s != [] && drop(s[0]) {
      LeadingCountIsRun(s[1..], drop);
    }
  }

  lemma {:induction false} TrailingCountIsRun(s: string, drop: char -> bool)
    ensures forall i | |s| - TrailingCount(s, drop) <= i < |s| :: drop(s[i])
    ensures TrailingCount(s, drop) < |s| ==> !drop(s[|s| - 1 - TrailingCount(s, drop)])
  {
    if s != [] && drop(s[|s| - 1]) {
      TrailingCountIsRun(s[..|s| - 1], drop);
    }
  }

  /** Python's str.strip: remove the leading, then the trailing characters
      that `drop` selects. */
  function Strip(s: string, drop: char -> bool): string {
    var rest := s[LeadingCount(s, drop)..];
    rest[..|rest| - TrailingCount(rest, drop)]
  }

  /** The result is the part of `s` that follows its leading run, everything
      cut away at either end was selected by `drop`, and neither end of the
      result could be cut further; these facts determine the result. */
  lemma StripSpec(s: string, drop: char -> bool)
    ensures LeadingCount(s, drop) + |Strip(s, drop)| <= |s|
    ensures Strip(s, drop) == s[LeadingCount(s, drop)..LeadingCount(s, drop) + |Strip(s, drop)|]
    ensures forall i | 0 <= i < LeadingCount(s, drop) :: drop(s[i])
    ensures forall i | LeadingCount(s, drop) + |Strip(s, drop)| <= i < |s| :: drop(s[i])
    ensures Strip(s, drop) == [] || (!drop(Strip(s, drop)[0]) && !drop(Strip(s, drop)[|Strip(s, drop)| - 1]))
  {
    LeadingCountIsRun(s, drop);
    StripSlice(s, drop);
    StripTrailingCut(s, drop);
    StripEnds(s, drop);
  }

  lemma StripSlice(s: string, drop: char -> bool)
    ensures LeadingCount(s, drop) + |Strip(s, drop)| <= |s|
    ensures Strip(s, drop) == s[LeadingCount(s, drop)..LeadingCount(s, drop) + |Strip(s, drop)|]
  {
    var n := LeadingCount(s, drop);
    var rest := s[n..];
    assert Strip(s, drop) == rest[..|rest| - TrailingCount(rest, drop)];
  }

  lemma StripTrailingCut(s: string, drop: char -> bool)
    ensures forall i | LeadingCount(s, drop) + |Strip(s, drop)| <= i < |s| :: drop(s[i])
  {
    var n := LeadingCount(s, drop);
    var rest := s[n..];
    TrailingCountIsRun(rest, drop);
    var r := Strip(s, drop);
    assert |r| == |rest| - TrailingCount(rest, drop);
    forall i | n + |r| <= i < |s| ensures drop(s[i]) {
      assert s[i] == rest[i - n];
    }
  }

  lemma StripEnds(s: string, drop: char -> bool)
    ensures Strip(s, drop) == [] || (!drop(Strip(s, drop)[0]) && !drop(Strip(s, drop)[|Strip(s, drop)| - 1]))
  {
    var n := LeadingCount(s, drop);
    var rest := s[n..];
    LeadingCountIsRun(s, drop);
    TrailingCountIsRun(rest, drop);
    var r := Strip(s, drop);
    assert r == rest[..|rest| - TrailingCount(rest, drop)];
    if r != [] {
      assert r[0] == s[n];
      assert r[|r| - 1] == rest[|rest| - 1 - TrailingCount(rest, drop)];
    }
  }

  /** Stripping twice strips no more than stripping once. */
  lemma StripIdempotent(s: string, drop: char -> bool)
    ensures Strip(Strip(s, drop), drop) == Strip(s, drop)
  {
    StripSpec(s, drop);
    var r := Strip(s, drop);
    assert LeadingCount(r, drop) == 0;
    assert r[0..] == r;
    assert TrailingCount(r, drop) == 0;
    assert r[..|r|] == r;
  }

  // ---------------------------------------------------------------------
  // The `in` operator on strings

  /** Python's `part in text` for strings: `part` occurs as a contiguous
      substring of `text`. */
  predicate Contains(text: string, part: string) {
    exists i | 0 <= i <= |text| :: part <= text[i..]
  }

  /** Text added before or after never removes an occurrence. */
  lemma ContainsExtend(a: string, b: string, part: string)
    requires Contains(a, part)
    ensures Contains(a + b, part) && Contains(b + a, part)
  {
    var i :| 0 <= i <= |a| && part <= a[i..];
    assert (a + b)[i..] == a[i..] + b;
    assert (b + a)[|b| + i..] == a[i..];
  }

  /** How many of `parts` occur in `text`, repetitions in `parts` counted. */
  function CountContained(text: string, parts: seq<string>): (n: nat)
    ensures n <= |parts|
  {
    if parts == [] then 0
    else CountContained(text, parts[..|parts| - 1]) + (if Contains(text, parts[|parts| - 1]) then 1 else 0)
  }

  /** The count is |parts| exactly when every part occurs, and 0 exactly when
      none does. */
  lemma {:induction false} CountContainedExtremes(text: string, parts: seq<string>)
    ensures CountContained(text, parts) == |parts| <==> forall j | 0 <= j < |parts| :: Contains(text, parts[j])
    ensures CountContained(text, parts) == 0 <==> forall j | 0 <= j < |parts| :: !Contains(text, parts[j])
  {
    if parts != [] {
      var init := parts[..|parts| - 1];
      CountContainedExtremes(text, init);
      assert forall j | 0 <= j < |init| :: init[j] == parts[j];
    }
  }

  /** Two texts that contain the same members of `parts` give the same count. */
  lemma {:induction false} CountContainedAgree(a: string, b: string, parts: seq<string>)
    requires forall j | 0 <= j < |parts| :: Contains(a, parts[j]) == Contains(b, parts[j])
    ensures CountContained(a, parts) == CountContained(b, parts)
  {
    if parts != [] {
      CountContainedAgree(a, b, parts[..|parts| - 1]);
    }
  }

  /** A text that contains every part the other one contains counts at least
      as many. */
  lemma {:induction false} CountContainedMonotone(a: string, b: string, parts: seq<string>)
    requires forall j | 0 <= j < |parts| :: Contains(a, parts[j]) ==> Contains(b, parts[j])
    ensures CountContained(a, parts) <= CountContained(b, parts)
  {
    if parts != [] {
      CountContainedMonotone(a, b, parts[..|parts| - 1]);
    }
  }

  /** Gaining exactly one of the parts, and agreeing on the others, adds
      exactly one to the count. */
  lemma {:induction false} CountContainedGainsOne(a: string, b: string, parts: seq<string>, k: nat)
    requires k < |parts|
    requires !Contains(a, parts[k]) && Contains(b, parts[k])
    requires forall j | 0 <= j < |parts| && j != k :: Contains(a, parts[j]) == Contains(b, parts[j])
    ensures CountContained(b, parts) == CountContained(a, parts) + 1
  {
    var init := parts[..|parts| - 1];
    if k == |parts| - 1 {
      CountContainedAgree(a, b, init);
    } else {
      CountContainedGainsOne(a, b, init, k);
    }
  }
}

/** Character-level string facts the core relies on: the lexicographic
    order of Rust's `String` (which compares code points), ASCII case
    mapping, and Rust's `char::is_whitespace`. */
module Strings {

  /** Strict lexicographic order on strings, character by character. A
      proper prefix is smaller than the longer string. */
  predicate Less(a: string, b: string)
    decreases |a|
  {
    if |a| == 0 then |b| > 0
    else |b| > 0 && (a[0] < b[0] || (a[0] == b[0] && Less(a[1..], b[1..])))
  }

  lemma {:induction false} LessIrreflexive(a: string)
    ensures !Less(a, a)
    decreases |a|
  {
    if |a| > 0 {
      LessIrreflexive(a[1..]);
    }
  }

  lemma {:induction false} LessTransitive(a: string, b: string, c: string)
    requires Less(a, b) && Less(b, c)
    ensures Less(a, c)
    decreases |a|
  {
    if |a| > 0 && a[0] == b[0] && b[0] == c[0] {
      LessTransitive(a[1..], b[1..], c[1..]);
    }
  }

  lemma {:induction false} LessTotal(a: string, b: string)
    requires a != b
    ensures Less(a, b) || Less(b, a)
    decreases |a|
  {
    if |a| > 0 && |b| > 0 && a[0] == b[0] {
      assert a == [a[0]] + a[1..] && b == [b[0]] + b[1..];
      LessTotal(a[1..], b[1..]);
    }
  }

  /** Upper-case image of one character; only ASCII letters change. */
  function UpperChar(c: char): char
  {
    if 'a' <= c <= 'z' then (c as int - 32) as char else c
  }

  /** Lower-case image of one character; only ASCII letters change. */
  function LowerChar(c: char): char
  {
    if 'A' <= c <= 'Z' then (c as int + 32) as char else c
  }

  function ToUpper(s: string): (r: string)
    ensures |r| == |s|
    ensures forall i :: 0 <= i < |s| ==> r[i] == UpperChar(s[i])
  {
    seq(|s|, i requires 0 <= i < |s| => UpperChar(s[i]))
  }

  function ToLower(s: string): (r: string)
    ensures |r| == |s|
    ensures forall i :: 0 <= i < |s| ==> r[i] == LowerChar(s[i])
  {
    seq(|s|, i requires 0 <= i < |s| => LowerChar(s[i]))
  }

  /** `s` spells the lower-case ASCII word `word` in any mixture of letter
      cases: an independent description of `ToLower(s) == word`. */
  ghost predicate AnyCaseOf(s: string, word: string)
  {
    |s| == |word| && forall i :: 0 <= i < |s| ==> s[i] == word[i] || s[i] == UpperChar(word[i])
  }

  /** A word made only of the letters a-z. */
  ghost predicate LowerAsciiWord(word: string)
  {
    forall i :: 0 <= i < |word| ==> 'a' <= word[i] <= 'z'
  }

  /** Comparing the lower-cased string against a lower-case word accepts
      exactly the case variants of that word. */
  lemma LowerEqualsIffAnyCase(s: string, word: string)
    requires LowerAsciiWord(word)
    ensures ToLower(s) == word <==> AnyCaseOf(s, word)
  {
    if AnyCaseOf(s, word) {
      assert forall i :: 0 <= i < |s| ==> ToLower(s)[i] == word[i];
    }
    if ToLower(s) == word {
      forall i | 0 <= i < |s|
        ensures s[i] == word[i] || s[i] == UpperChar(word[i])
      {
        assert LowerChar(s[i]) == word[i];
      }
    }
  }

  /** The code points of the Unicode White_Space property. */
  const WhitespaceCodes: set<int> :=
    {0x09, 0x0A, 0x0B, 0x0C, 0x0D, 0x20, 0x85, 0xA0, 0x1680,
     0x2000, 0x2001, 0x2002, 0x2003, 0x2004, 0x2005, 0x2006, 0x2007, 0x2008, 0x2009, 0x200A,
     0x2028, 0x2029, 0x202F, 0x205F, 0x3000}

  /** Rust's `char::is_whitespace`. */
  predicate IsWhitespace(c: char)
  {
    c as int in WhitespaceCodes
  }

  predicate NoWhitespace(s: string)
  {
    forall i :: 0 <= i < |s| ==> !IsWhitespace(s[i])
  }
}

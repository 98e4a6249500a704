/**
  The JavaScript string operations the routes use, on strings as sequences of characters:
  `includes`, `toLowerCase`, `trim`, `substring(0, n)` and `join`.
 */
module Strings {
  import opened Seqs

  predicate StartsWith(s: string, prefix: string)
  {
    |prefix| <= |s| && s[..|prefix|] == prefix
  }

  /** `text.includes(word)`, computed by trying every start position (the empty word is everywhere). */
  predicate Contains(text: string, word: string)
    decreases |text|
  {
    StartsWith(text, word) || (|text| > 0 && Contains(text[1..], word))
  }

  /** The reference meaning of `Contains`: `word` occurs in `text` starting at index `i`. */
  ghost predicate OccursAt(text: string, word: string, i: int)
  {
    0 <= i && i + |word| <= |text| && text[i..i + |word|] == word
  }

  lemma {:induction false} ContainsIffOccurs(text: string, word: string)
    ensures Contains(text, word) <==> exists i :: OccursAt(text, word, i)
    decreases |text|
  {
    if StartsWith(text, word) {
      assert OccursAt(text, word, 0);
    } else if |text| > 0 {
      var rest := text[1..];
      ContainsIffOccurs(rest, word);
      if Contains(rest, word) {
        var i :| OccursAt(rest, word, i);
        assert text[i + 1..i + 1 + |word|] == rest[i..i + |word|];
        assert OccursAt(text, word, i + 1);
      } else if exists i :: OccursAt(text, word, i) {
        var i :| OccursAt(text, word, i);
        assert i != 0;
        assert rest[i - 1..i - 1 + |word|] == text[i..i + |word|];
        assert OccursAt(rest, word, i - 1);
        assert false;
      }
    } else {
      assert forall i :: !OccursAt(text, word, i);
    }
  }

  /** A word occurring in the tail part of a concatenation occurs in the whole. */
  lemma {:induction false} ContainsInSuffix(a: string, b: string, word: string)
    requires Contains(b, word)
    ensures Contains(a + b, word)
    decreases |a|
  {
    if |a| > 0 {
      assert (a + b)[1..] == a[1..] + b;
      ContainsInSuffix(a[1..], b, word);
    } else {
      assert a + b == b;
    }
  }

  lemma ContainsOwnPrefix(a: string, b: string)
    ensures Contains(a + b, a)
  {
    assert (a + b)[..|a|] == a;
  }

  /** `toLowerCase` on one character; only the ASCII letters A to Z are mapped. */
  function LowerChar(c: char): char
  {
    if 'A' <= c <= 'Z' then (c as int + 32) as char else c
  }

  /** `toLowerCase`, one character at a time (so it keeps the length and commutes with slicing). */
  function Lower(s: string): (r: string)
    ensures |r| == |s|
    ensures forall i :: 0 <= i < |s| ==> r[i] == LowerChar(s[i])
  {
    seq(|s|, i requires 0 <= i < |s| => LowerChar(s[i]))
  }

  lemma LowerSlice(s: string, i: nat, j: nat)
    requires i <= j <= |s|
    ensures Lower(s)[i..j] == Lower(s[i..j])
  {
  }

  /**
    A case-sensitive occurrence is also a case-insensitive one: `text.includes(word)` implies
    `text.toLowerCase().includes(word.toLowerCase())`.
   */
  lemma {:induction false} ContainsLower(text: string, word: string)
    requires Contains(text, word)
    ensures Contains(Lower(text), Lower(word))
    decreases |text|
  {
    if StartsWith(text, word) {
      LowerSlice(text, 0, |word|);
    } else {
      assert |text| > 0;
      LowerSlice(text, 1, |text|);
      ContainsLower(text[1..], word);
      assert Lower(text)[1..] == Lower(text[1..]);
    }
  }

  /** The characters `trim` removes: ECMAScript's WhiteSpace and LineTerminator code points. */
  predicate IsWhitespace(c: char)
  {
    c == ' ' || c == '\t' || c == '\n' || c == '\r' || c == '\U{000B}' || c == '\U{000C}'
    || c == '\U{00A0}' || c == '\U{1680}' || ('\U{2000}' <= c <= '\U{200A}')
    || c == '\U{2028}' || c == '\U{2029}' || c == '\U{202F}' || c == '\U{205F}'
    || c == '\U{3000}' || c == '\U{FEFF}'
  }

  /** The characters a regular-expression `.` does not match. */
  predicate IsLineTerminator(c: char)
  {
    c == '\n' || c == '\r' || c == '\U{2028}' || c == '\U{2029}'
  }

  function TrimStart(s: string): (r: string)
    ensures |r| <= |s|
  {
    if |s| > 0 && IsWhitespace(s[0]) then TrimStart(s[1..]) else s
  }

  function TrimEnd(s: string): (r: string)
    ensures |r| <= |s|
  {
    if |s| > 0 && IsWhitespace(s[|s| - 1]) then TrimEnd(s[..|s| - 1]) else s
  }

  /** `s.trim()`: `s` without leading and trailing whitespace. */
  function Trim(s: string): (r: string)
    ensures |r| <= |s|
  {
    TrimEnd(TrimStart(s))
  }

  lemma {:induction false} TrimStartSpec(s: string)
    ensures TrimStart(s) == s[|s| - |TrimStart(s)|..]
    ensures TrimStart(s) != [] ==> !IsWhitespace(TrimStart(s)[0])
    ensures forall i :: 0 <= i < |s| - |TrimStart(s)| ==> IsWhitespace(s[i])
    decreases |s|
  {
    if |s| > 0 && IsWhitespace(s[0]) {
      TrimStartSpec(s[1..]);
    }
  }

  lemma {:induction false} TrimEndSpec(s: string)
    ensures TrimEnd(s) == s[..|TrimEnd(s)|]
    ensures TrimEnd(s) != [] ==> !IsWhitespace(TrimEnd(s)[|TrimEnd(s)| - 1])
    ensures forall i :: |TrimEnd(s)| <= i < |s| ==> IsWhitespace(s[i])
    decreases |s|
  {
    if |s| > 0 && IsWhitespace(s[|s| - 1]) {
      TrimEndSpec(s[..|s| - 1]);
    }
  }

  /**
    `trim` keeps a contiguous piece of `s`, starting at some `i`, that neither starts nor ends
    with whitespace, and drops only whitespace on either side of it.
   */
  lemma TrimSpec(s: string) returns (i: nat)
    ensures i + |Trim(s)| <= |s| && Trim(s) == s[i..i + |Trim(s)|]
    ensures Trim(s) != [] ==> !IsWhitespace(Trim(s)[0]) && !IsWhitespace(Trim(s)[|Trim(s)| - 1])
    ensures forall k :: 0 <= k < i ==> IsWhitespace(s[k])
    ensures forall k :: i + |Trim(s)| <= k < |s| ==> IsWhitespace(s[k])
  {
    var t := TrimStart(s);
    TrimStartSpec(s);
    TrimEndSpec(t);
    i := |s| - |t|;
  }

  /** `substring(0, n)`: the first `n` characters, or all of them when there are fewer. */
  function Prefix(s: string, n: nat): (r: string)
    ensures |r| == Min(n, |s|) && StartsWith(s, r)
    ensures |s| <= n ==> r == s
  {
    Take(s, n)
  }

  /** `parts.join(sep)`. */
  function Join(parts: seq<string>, sep: string): string
  {
    if |parts| == 0 then ""
    else if |parts| == 1 then parts[0]
    else parts[0] + sep + Join(parts[1..], sep)
  }

  /** Every joined part can be found in the joined text. */
  lemma {:induction false} JoinNamesEveryPart(parts: seq<string>, sep: string, i: nat)
    requires i < |parts|
    ensures Contains(Join(parts, sep), parts[i])
    decreases |parts|
  {
    if |parts| == 1 {
      ContainsOwnPrefix(parts[0], "");
      assert parts[0] + "" == parts[0];
    } else if i == 0 {
      assert Join(parts, sep) == parts[0] + (sep + Join(parts[1..], sep));
      ContainsOwnPrefix(parts[0], sep + Join(parts[1..], sep));
    } else {
      JoinNamesEveryPart(parts[1..], sep, i - 1);
      ContainsInSuffix(parts[0] + sep, Join(parts[1..], sep), parts[i]);
    }
  }

  /** The decimal digits of `n`, as `${n}` prints them. */
  function DecimalString(n: nat): (r: string)
    ensures |r| >= 1 && forall i :: 0 <= i < |r| ==> '0' <= r[i] <= '9'
  {
    if n < 10 then [('0' as int + n) as char] else DecimalString(n / 10) + DecimalString(n % 10)
  }
}

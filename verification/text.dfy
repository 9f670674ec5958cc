/** The string primitives the analyser and the user interface rely on, as
    JavaScript defines them: `trim`, `includes`, `join`, `length` in UTF-16
    code units, and `toLowerCase` restricted to ASCII letters. */
module Text {

  /** The characters `String.prototype.trim` removes: the WhiteSpace and
      LineTerminator code points of ECMAScript. */
  predicate IsWhitespace(c: char) {
    || c == '\t' || c == '\n' || c == '\U{000B}' || c == '\U{000C}' || c == '\r'
    || c == ' ' || c == '\U{00A0}' || c == '\U{1680}'
    || ('\U{2000}' <= c <= '\U{200A}')
    || c == '\U{2028}' || c == '\U{2029}' || c == '\U{202F}' || c == '\U{205F}'
    || c == '\U{3000}' || c == '\U{FEFF}'
  }

  /** Drops leading whitespace. */
  function TrimStart(s: string): (r: string)
    ensures |r| <= |s| && r == s[|s| - |r|..]
    ensures r == [] || !IsWhitespace(r[0])
    ensures forall i :: 0 <= i < |s| - |r| ==> IsWhitespace(s[i])
    decreases |s|
  {
    if s != [] && IsWhitespace(s[0]) then TrimStart(s[1..]) else s
  }

  /** Drops trailing whitespace. */
  function TrimEnd(s: string): (r: string)
    ensures |r| <= |s| && r == s[..|r|]
    ensures r == [] || !IsWhitespace(r[|r| - 1])
    ensures forall i :: |r| <= i < |s| ==> IsWhitespace(s[i])
    decreases |s|
  {
    if s != [] && IsWhitespace(s[|s| - 1]) then TrimEnd(s[..|s| - 1]) else s
  }

  /** `s.trim()`: the text without whitespace at either end; empty exactly
      when the text is whitespace only. */
  function Trim(s: string): (r: string)
    ensures r == [] || (!IsWhitespace(r[0]) && !IsWhitespace(r[|r| - 1]))
    ensures r == [] <==> forall i :: 0 <= i < |s| ==> IsWhitespace(s[i])
  {
    TrimEdges(s);
    TrimEnd(TrimStart(s))
  }

  /** The two passes of `Trim` together leave non-blank edges, and leave
      nothing only when every character was blank. */
  lemma TrimEdges(s: string)
    ensures var r := TrimEnd(TrimStart(s));
            && (r == [] || (!IsWhitespace(r[0]) && !IsWhitespace(r[|r| - 1])))
            && (r == [] <==> forall i :: 0 <= i < |s| ==> IsWhitespace(s[i]))
  {
    var t := TrimStart(s);
    var r := TrimEnd(t);
    var d := |s| - |t|;
    if r == [] {
      forall i | 0 <= i < |s|
        ensures IsWhitespace(s[i])
      {
        if i >= d {
          assert s[i] == t[i - d];
        }
      }
    } else {
      assert r[0] == t[0] == s[d];
    }
  }

  /** A text that has no whitespace at either end is its own trim. */
  lemma TrimUntouched(s: string)
    requires s != [] && !IsWhitespace(s[0]) && !IsWhitespace(s[|s| - 1])
    ensures Trim(s) == s
  {
  }

  /** Trimming a text that ends in one blank after a non-blank removes just
      that blank. */
  lemma TrimDropsFinalBlank(s: string)
    requires s != [] && !IsWhitespace(s[0]) && !IsWhitespace(s[|s| - 1])
    ensures Trim(s + " ") == s
  {
  }

  predicate StartsWith(s: string, prefix: string) {
    |prefix| <= |s| && s[..|prefix|] == prefix
  }

  predicate EndsWith(s: string, suffix: string) {
    |suffix| <= |s| && s[|s| - |suffix|..] == suffix
  }

  /** `word` appears in `s` starting at index `i`. */
  predicate OccursAt(s: string, word: string, i: int) {
    0 <= i && i + |word| <= |s| && s[i..i + |word|] == word
  }

  /** `s.includes(word)`, scanning from the left. */
  predicate Contains(s: string, word: string)
    decreases |s|
  {
    StartsWith(s, word) || (s != [] && Contains(s[1..], word))
  }

  /** The scan finds `word` exactly when it occurs at some index. */
  lemma {:induction false} ContainsIff(s: string, word: string)
    ensures Contains(s, word) <==> exists i :: OccursAt(s, word, i)
    decreases |s|
  {
    if s != [] {
      ContainsIff(s[1..], word);
    }
    if Contains(s, word) {
      if StartsWith(s, word) {
        assert OccursAt(s, word, 0);
      } else {
        var i :| OccursAt(s[1..], word, i);
        assert s[1..][i..i + |word|] == s[i + 1..i + 1 + |word|];
        assert OccursAt(s, word, i + 1);
      }
    }
    if exists i :: OccursAt(s, word, i) {
      var i :| OccursAt(s, word, i);
      if i == 0 {
        assert StartsWith(s, word);
      } else {
        assert s[1..][i - 1..i - 1 + |word|] == s[i..i + |word|];
        assert OccursAt(s[1..], word, i - 1);
      }
    }
  }

  /** A one-character search is a membership test. */
  lemma ContainsChar(s: string, c: char)
    ensures Contains(s, [c]) <==> c in s
  {
    ContainsIff(s, [c]);
    if c in s {
      var i :| 0 <= i < |s| && s[i] == c;
      assert OccursAt(s, [c], i);
    }
    if exists i :: OccursAt(s, [c], i) {
      var i :| OccursAt(s, [c], i);
      assert s[i] == s[i..i + 1][0] == c;
    }
  }

  /** The regular-expression class `\d`: the ASCII decimal digits. */
  predicate IsDigit(c: char) {
    '0' <= c <= '9'
  }

  /** The regular expression `\d` finds a match. */
  predicate HasDigit(s: string) {
    exists i :: 0 <= i < |s| && IsDigit(s[i])
  }

  /** The regular expression `\d+` followed by `suffix` finds a match: some
      digit is immediately followed by `suffix` (the last digit of any run
      that the pattern matches is such a digit). */
  predicate DigitFollowedBy(s: string, suffix: string) {
    exists i :: 0 <= i < |s| && IsDigit(s[i]) && StartsWith(s[i + 1..], suffix)
  }

  /** `toLowerCase` on one character, for the ASCII letters only. */
  function LowerChar(c: char): char {
    if 'A' <= c <= 'Z' then (c as int + 32) as char else c
  }

  /** `toUpperCase` on one character, for the ASCII letters only. */
  function UpperChar(c: char): char {
    if 'a' <= c <= 'z' then (c as int - 32) as char else c
  }

  function LowerAscii(s: string): string {
    seq(|s|, i requires 0 <= i < |s| => LowerChar(s[i]))
  }

  function UpperAscii(s: string): string {
    seq(|s|, i requires 0 <= i < |s| => UpperChar(s[i]))
  }

  /** Lowering is idempotent, undoes raising, and leaves every character
      that is not an upper-case ASCII letter where it was; a character that
      is no letter at all (such as `?`) occurs in the lowered text exactly
      when it occurs in the original. */
  lemma LowerAsciiFacts(s: string)
    ensures |LowerAscii(s)| == |s|
    ensures LowerAscii(LowerAscii(s)) == LowerAscii(s)
    ensures LowerAscii(UpperAscii(s)) == LowerAscii(s)
    ensures forall i :: 0 <= i < |s| && !('A' <= s[i] <= 'Z') ==> LowerAscii(s)[i] == s[i]
    ensures forall c :: !('a' <= c <= 'z') && !('A' <= c <= 'Z') ==> (c in LowerAscii(s) <==> c in s)
  {
  }

  /** Raising leaves every character that is not a lower-case ASCII letter
      where it was. */
  lemma UpperAsciiKeeps(s: string, c: char)
    requires !('a' <= c <= 'z') && !('A' <= c <= 'Z')
    ensures c in UpperAscii(s) <==> c in s
  {
    var u := UpperAscii(s);
    if c in s {
      var i :| 0 <= i < |s| && s[i] == c;
      assert u[i] == c;
    }
    if c in u {
      var i :| 0 <= i < |u| && u[i] == c;
      assert s[i] == c;
    }
  }

  /** How many UTF-16 code units encode one character. */
  function CodeUnits(c: char): nat {
    if c as int > 0xFFFF then 2 else 1
  }

  /** `s.length` in JavaScript: the number of UTF-16 code units. */
  function Utf16Length(s: string): (n: nat)
    ensures |s| <= n <= 2 * |s|
    ensures (forall i :: 0 <= i < |s| ==> s[i] as int <= 0xFFFF) ==> n == |s|
  {
    if s == [] then 0 else CodeUnits(s[0]) + Utf16Length(s[1..])
  }

  /** Two texts whose characters pair up with equal widths have the same
      UTF-16 length. */
  lemma {:induction false} Utf16LengthMatches(a: string, b: string)
    requires |a| == |b|
    requires forall i :: 0 <= i < |a| ==> CodeUnits(a[i]) == CodeUnits(b[i])
    ensures Utf16Length(a) == Utf16Length(b)
  {
    if a != [] {
      Utf16LengthMatches(a[1..], b[1..]);
    }
  }

  /** Changing the case of ASCII letters does not change `length`. */
  lemma Utf16LengthCase(s: string)
    ensures Utf16Length(LowerAscii(s)) == Utf16Length(s)
    ensures Utf16Length(UpperAscii(s)) == Utf16Length(s)
  {
    Utf16LengthMatches(LowerAscii(s), s);
    Utf16LengthMatches(UpperAscii(s), s);
  }

  /** `parts.join(sep)`. */
  function Join(parts: seq<string>, sep: string): string {
    if |parts| == 0 then ""
    else if |parts| == 1 then parts[0]
    else parts[0] + sep + Join(parts[1..], sep)
  }

  /** A non-empty join ends with its last part. */
  lemma {:induction false} JoinEndsWithLast(parts: seq<string>, sep: string)
    requires parts != []
    ensures EndsWith(Join(parts, sep), parts[|parts| - 1])
  {
    if |parts| > 1 {
      JoinEndsWithLast(parts[1..], sep);
      var j := Join(parts[1..], sep);
      var last := parts[|parts| - 1];
      assert (parts[0] + sep + j)[|parts[0] + sep + j| - |last|..] == j[|j| - |last|..];
    }
  }
}

/** The JavaScript string operations the routes and components rely on: the character classes of
    their regular expressions, `trim`, `split("\n")[0]`, `replace` of a literal with the `g` flag,
    and the decimal rendering of a count inside a template literal.
    A string is a sequence of characters; JavaScript's UTF-16 code units are not modelled. */
module JsText {

  /** `\w` of a regular expression without the `u` flag: `[A-Za-z0-9_]`. */
  predicate IsWordChar(c: char) {
    ('a' <= c <= 'z') || ('A' <= c <= 'Z') || ('0' <= c <= '9') || c == '_'
  }

  /** `\d` of a regular expression without the `u` flag: `[0-9]`. */
  predicate IsDigit(c: char) {
    '0' <= c <= '9'
  }

  /** The line terminators: what `.` does not match. */
  predicate IsLineTerminator(c: char) {
    c == '\n' || c == '\r' || c == '\U{2028}' || c == '\U{2029}'
  }

  /** ECMAScript WhiteSpace (including every space separator) and LineTerminator: what `trim` removes. */
  predicate IsTrimmable(c: char) {
    || IsLineTerminator(c)
    || c == '\t' || c == '\U{B}' || c == '\U{C}' || c == ' ' || c == '\U{A0}' || c == '\U{FEFF}'
    || c == '\U{1680}' || ('\U{2000}' <= c <= '\U{200A}') || c == '\U{202F}' || c == '\U{205F}'
    || c == '\U{3000}'
  }

  /** `r` occurs in `s` as one contiguous piece. */
  ghost predicate IsPieceOf(r: string, s: string) {
    exists a, b :: 0 <= a <= b <= |s| && s[a..b] == r
  }

  /** The number of trimmable characters at the start of `s`. */
  function LeadingTrimmable(s: string): (n: nat)
    ensures n <= |s|
    ensures forall i :: 0 <= i < n ==> IsTrimmable(s[i])
    ensures n < |s| ==> !IsTrimmable(s[n])
  {
    if |s| > 0 && IsTrimmable(s[0]) then 1 + LeadingTrimmable(s[1..]) else 0
  }

  /** The number of trimmable characters at the end of `s`. */
  function TrailingTrimmable(s: string): (n: nat)
    ensures n <= |s|
    ensures forall i :: |s| - n <= i < |s| ==> IsTrimmable(s[i])
    ensures n < |s| ==> !IsTrimmable(s[|s| - 1 - n])
  {
    if |s| > 0 && IsTrimmable(s[|s| - 1]) then 1 + TrailingTrimmable(s[..|s| - 1]) else 0
  }

  /** `r` is what is left of `s` once the characters before `a` and after `a + |r|` are removed,
      all of which are trimmable. */
  ghost predicate TrimmedAt(s: string, r: string, a: nat) {
    && a + |r| <= |s| && s[a..a + |r|] == r
    && (forall i :: 0 <= i < a ==> IsTrimmable(s[i]))
    && (forall i :: a + |r| <= i < |s| ==> IsTrimmable(s[i]))
  }

  /** `String.prototype.trim`: drops the trimmable characters at both ends and nothing else. */
  function Trim(s: string): (r: string)
    ensures IsPieceOf(r, s)
    ensures exists a: nat :: TrimmedAt(s, r, a)
    ensures r != [] ==> !IsTrimmable(r[0]) && !IsTrimmable(r[|r| - 1])
    ensures r == [] <==> forall i :: 0 <= i < |s| ==> IsTrimmable(s[i])
  {
    var a := LeadingTrimmable(s);
    var b := TrailingTrimmable(s[a..]);
    TrimParts(s, a, b);
    s[a..][..|s| - a - b]
  }

  /** What is left of `s` between `a` trimmable characters at the start and `b` at the end of the
      rest: it sits at `a` with only trimmable characters around it, and when both runs stop at a
      kept character it starts and ends with one, and it is empty exactly when all of `s` is
      trimmable. */
  lemma TrimParts(s: string, a: nat, b: nat)
    requires a <= |s| && b <= |s| - a
    requires forall i :: 0 <= i < a ==> IsTrimmable(s[i])
    requires forall i :: |s[a..]| - b <= i < |s[a..]| ==> IsTrimmable(s[a..][i])
    requires a < |s| ==> !IsTrimmable(s[a])
    requires b < |s[a..]| ==> !IsTrimmable(s[a..][|s[a..]| - 1 - b])
    ensures var r := s[a..][..|s| - a - b];
      && IsPieceOf(r, s) && TrimmedAt(s, r, a)
      && (r != [] ==> !IsTrimmable(r[0]) && !IsTrimmable(r[|r| - 1]))
      && (r == [] <==> forall i :: 0 <= i < |s| ==> IsTrimmable(s[i]))
  {
    var t := s[a..];
    var r := s[a..][..|s| - a - b];
    assert a + |r| <= |s| && s[a..a + |r|] == r;
    assert IsPieceOf(r, s);
    assert TrimmedAt(s, r, a) by {
      forall i | a + |r| <= i < |s| ensures IsTrimmable(s[i]) {
        assert s[i] == t[i - a];
      }
    }
    if a < |s| {
      assert b < |t|;
      assert r[0] == s[a];
      assert r[|r| - 1] == t[|t| - 1 - b];
    }
  }

  /** `s.split("\n")[0]`: everything before the first `\n` (only `\n` splits, not `\r`). */
  function FirstLine(s: string): (r: string)
    ensures r <= s
    ensures '\n' !in r
    ensures r == s || s[|r|] == '\n'
  {
    if s == [] || s[0] == '\n' then [] else [s[0]] + FirstLine(s[1..])
  }

  /** The longest prefix of `s` without the character `c`. */
  function PrefixBefore(s: string, c: char): (r: string)
    ensures r <= s && c !in r
    ensures r == s || s[|r|] == c
  {
    if s == [] || s[0] == c then []
    else
      var r := [s[0]] + PrefixBefore(s[1..], c);
      assert s == [s[0]] + s[1..];
      r
  }

  /** `s.replace(c, "")` with a one-character string pattern: only the first `c` is removed. */
  function RemoveFirst(s: string, c: char): (r: string)
    ensures c !in s ==> r == s
    ensures c in s ==> var k := |PrefixBefore(s, c)|;
      k < |s| && s[k] == c && r == s[..k] + s[k + 1..]
  {
    var k := |PrefixBefore(s, c)|;
    if k == |s| then s else s[..k] + s[k + 1..]
  }

  /** `s.replace(/pat/g, rep)` for a pattern made only of literal characters: the leftmost
      occurrence is replaced, the search resumes after it, so occurrences never overlap. */
  function ReplaceAll(s: string, pat: string, rep: string): (r: string)
    requires pat != []
    ensures forall c :: c in r ==> c in s || c in rep
    ensures s != [] && rep != [] ==> r != []
    decreases |s|
  {
    if |s| < |pat| then s
    else if s[..|pat|] == pat then rep + ReplaceAll(s[|pat|..], pat, rep)
    else [s[0]] + ReplaceAll(s[1..], pat, rep)
  }

  /** A pattern holding a character that `s` lacks occurs nowhere in `s`, so nothing is replaced. */
  lemma {:induction false} ReplaceAllWithoutOccurrence(s: string, pat: string, rep: string, c: char)
    requires pat != [] && c in pat && c !in s
    ensures ReplaceAll(s, pat, rep) == s
    decreases |s|
  {
    var k :| 0 <= k < |pat| && pat[k] == c;
    if |s| >= |pat| {
      assert s[k] in s;
      assert s[..|pat|][k] != pat[k];
      ReplaceAllWithoutOccurrence(s[1..], pat, rep, c);
      assert s == [s[0]] + s[1..];
    }
  }

  /** `s` with every `c` left out and the other characters kept, in their order. */
  function WithoutChar(s: string, c: char): (r: string)
    ensures c !in r
    ensures |r| == |s| - multiset(s)[c]
    ensures forall d :: d != c ==> multiset(r)[d] == multiset(s)[d]
  {
    if s == [] then []
    else
      assert s == [s[0]] + s[1..];
      (if s[0] == c then [] else [s[0]]) + WithoutChar(s[1..], c)
  }

  /** `s.replace(/c/g, "")` for one character `c` leaves out every `c` and keeps the other
      characters in their order: every `c` is gone, every other character keeps its number of
      occurrences, and the length drops by the number of `c`s. */
  lemma {:induction false} RemoveAllOfChar(s: string, c: char)
    ensures ReplaceAll(s, [c], []) == WithoutChar(s, c)
    ensures var r := ReplaceAll(s, [c], []);
      && c !in r
      && |r| == |s| - multiset(s)[c]
      && forall d :: d != c ==> multiset(r)[d] == multiset(s)[d]
    decreases |s|
  {
    if |s| >= 1 {
      RemoveAllOfChar(s[1..], c);
      assert s[..1] == [s[0]];
    }
  }

  /** The digit character for a value below ten. */
  function Digit(d: nat): (c: char)
    requires d < 10
    ensures IsDigit(c) && c as int - '0' as int == d
  {
    ('0' as int + d) as char
  }

  /** The value of a string of decimal digits. */
  function DecimalValue(s: string): int
    requires forall i :: 0 <= i < |s| ==> IsDigit(s[i])
  {
    if s == [] then 0 else 10 * DecimalValue(s[..|s| - 1]) + (s[|s| - 1] as int - '0' as int)
  }

  /** A non-negative integer in a template literal (`${n}`): decimal digits without a leading zero,
      which read back as `n`. */
  function NatToString(n: nat): (r: string)
    ensures r != [] && forall i :: 0 <= i < |r| ==> IsDigit(r[i])
    ensures |r| > 1 ==> r[0] != '0'
    ensures DecimalValue(r) == n
  {
    if n < 10 then [Digit(n)]
    else
      var r := NatToString(n / 10) + [Digit(n % 10)];
      assert r[..|r| - 1] == NatToString(n / 10);
      r
  }
}

/** The value split of the statistics counter: a display value such as `3.61K+` becomes the number
    it counts up to, written as a string without thousands separators, the suffix shown after it and
    the number of decimal places it is shown with. */
module StatValue {
  import opened JsText

  /** `[\d,.]` */
  predicate IsNumberChar(c: char) {
    IsDigit(c) || c == ',' || c == '.'
  }

  /** Every character of `s` is in `[\d,.]`. */
  predicate AllNumberChars(s: string) {
    forall i :: 0 <= i < |s| ==> IsNumberChar(s[i])
  }

  /** No character of `s` is a line terminator: what `(.*)$` accepts. */
  predicate SingleLine(s: string) {
    forall i :: 0 <= i < |s| ==> !IsLineTerminator(s[i])
  }

  /** `/^([\d,.]+)(.*)$/` can match `value` with its first group ending at `p`. */
  predicate SplitsAt(value: string, p: nat) {
    1 <= p <= |value| && AllNumberChars(value[..p]) && SingleLine(value[p..])
  }

  /** The length of the leading run of `[\d,.]` characters. */
  function LeadingRun(s: string): (n: nat)
    ensures n <= |s|
    ensures AllNumberChars(s[..n])
    ensures n < |s| ==> !IsNumberChar(s[n])
  {
    if s != [] && IsNumberChar(s[0]) then
      var n := 1 + LeadingRun(s[1..]);
      assert forall i :: 1 <= i < n ==> s[..n][i] == s[1..][..n - 1][i - 1];
      n
    else 0
  }

  /** Whether `value.match(/^([\d,.]+)(.*)$/)` matches: it starts with `[\d,.]` and, since no
      character of the class is a line terminator, holds no line terminator anywhere. */
  predicate Matches(value: string) {
    value != [] && IsNumberChar(value[0]) && SingleLine(value)
  }

  /** The pattern matches exactly when some split of the value fits it, and the greedy `+` makes the
      first group the whole leading run, the largest split that fits. */
  lemma {:induction false} MatchesIffSplit(value: string)
    ensures Matches(value) <==> exists p: nat :: SplitsAt(value, p)
    ensures Matches(value) ==>
      SplitsAt(value, LeadingRun(value)) && forall p: nat :: SplitsAt(value, p) ==> p <= LeadingRun(value)
  {
    var n := LeadingRun(value);
    if Matches(value) {
      assert value[..n][0] == value[0];
      assert n >= 1;
      assert forall i :: 0 <= i < |value[n..]| ==> value[n..][i] == value[n + i];
      assert SplitsAt(value, n);
      forall p: nat | SplitsAt(value, p) ensures p <= n {
      }
    }
    if exists p: nat :: SplitsAt(value, p) {
      var p: nat :| SplitsAt(value, p);
      assert value[..p][0] == value[0];
      forall i | 0 <= i < |value| ensures !IsLineTerminator(value[i]) {
        if i < p {
          assert value[..p][i] == value[i];
        } else {
          assert value[p..][i - p] == value[i];
        }
      }
    }
  }

  /** `s.split(".")`: the pieces between the dots, in order. */
  function SplitOnDot(s: string): (parts: seq<string>)
    ensures parts != []
    ensures forall i :: 0 <= i < |parts| ==> '.' !in parts[i]
    ensures parts[0] == PrefixBefore(s, '.')
    decreases |s|
  {
    var head := PrefixBefore(s, '.');
    if head == s then [s]
    else
      var rest := s[|head| + 1..];
      [head] + SplitOnDot(rest)
  }

  /** The pieces joined back with `.` between them. */
  function JoinWithDot(parts: seq<string>): string
    requires parts != []
  {
    if |parts| == 1 then parts[0] else parts[0] + "." + JoinWithDot(parts[1..])
  }

  /** Splitting on `.` loses nothing: joining the pieces with `.` gives the text back. */
  lemma {:induction false} SplitOnDotJoins(s: string)
    ensures JoinWithDot(SplitOnDot(s)) == s
    decreases |s|
  {
    var head := PrefixBefore(s, '.');
    if head != s {
      var rest := s[|head| + 1..];
      var parts := SplitOnDot(s);
      assert parts[1..] == SplitOnDot(rest) by {
        assert parts == [head] + SplitOnDot(rest);
      }
      SplitOnDotJoins(rest);
      calc {
        JoinWithDot(parts);
        parts[0] + "." + JoinWithDot(parts[1..]);
        head + "." + rest;
        { assert s[|head|] == '.' && s[..|head|] == head; }
        s;
      }
    }
  }

  /** With a `.` in `s`, the second piece is what follows the first `.` up to the next one. */
  lemma SecondPiece(s: string)
    requires '.' in s
    ensures var k := |PrefixBefore(s, '.')|;
      k < |s| && |SplitOnDot(s)| >= 2 && SplitOnDot(s)[1] == PrefixBefore(s[k + 1..], '.')
  {
    var head := PrefixBefore(s, '.');
    assert head != s;
    var rest := s[|head| + 1..];
    assert SplitOnDot(s) == [head] + SplitOnDot(rest);
  }

  /** `numericString.includes(".") ? numericString.split(".")[1]?.length || 0 : 0` */
  function DecimalPlaces(numeric: string): (d: nat)
    ensures '.' !in numeric ==> d == 0
    ensures '.' in numeric ==>
      var k := |PrefixBefore(numeric, '.')|;
      && k + 1 + d <= |numeric| && numeric[k] == '.'
      && '.' !in numeric[k + 1..k + 1 + d]
      && (k + 1 + d == |numeric| || numeric[k + 1 + d] == '.')
  {
    if '.' in numeric then
      SecondPiece(numeric);
      |SplitOnDot(numeric)[1]|
    else 0
  }

  /** What the counter shows: the number to count up to, the suffix, and the decimal places. */
  datatype StatParts = StatParts(numeric: string, suffix: string, decimalPlaces: nat)

  /** The `useMemo` body of the counter, without the `parseFloat` of the numeric string. */
  function ParseStat(value: string): (r: StatParts)
    ensures ',' !in r.numeric
    ensures r.decimalPlaces == DecimalPlaces(r.numeric)
    ensures !Matches(value) ==> r == StatParts("0", "", 0)
    ensures Matches(value) ==>
      var run := value[..LeadingRun(value)];
      && run + r.suffix == value
      && r.numeric == WithoutChar(run, ',')
      && |r.numeric| == |run| - multiset(run)[',']
      && forall c :: c != ',' ==> multiset(r.numeric)[c] == multiset(run)[c]
  {
    var n := LeadingRun(value);
    var numeric := if Matches(value) then ReplaceAll(value[..n], ",", "") else "0";
    var suffix := if Matches(value) then value[n..] else "";
    assert ',' !in numeric && (Matches(value) ==> numeric == WithoutChar(value[..n], ',')) by {
      assert "," == [','];
      RemoveAllOfChar(value[..n], ',');
      assert "0"[0] != ',';
    }
    assert Matches(value) ==> value[..n] + suffix == value;
    assert !Matches(value) ==> DecimalPlaces(numeric) == 0 by {
      assert "0"[0] != '.';
    }
    StatParts(numeric, suffix, DecimalPlaces(numeric))
  }

  /** A number written `whole.frac`, with no other dot, is shown with as many decimal places as
      `frac` has characters. */
  lemma DecimalPlacesOfFraction(whole: string, frac: string)
    requires '.' !in whole && '.' !in frac
    ensures DecimalPlaces(whole + "." + frac) == |frac|
  {
    var s := whole + "." + frac;
    assert s[|whole|] == '.' && s[..|whole|] == whole && s[|whole| + 1..] == frac;
  }

  /** A value made of a run of `[\d,.]` characters followed by a suffix that does not start with one
      (on one line) splits into exactly that run, with its commas dropped, and that suffix. */
  lemma ParseNumberThenSuffix(number: string, suffix: string)
    requires number != [] && AllNumberChars(number)
    requires suffix != [] ==> !IsNumberChar(suffix[0])
    requires SingleLine(number + suffix)
    ensures var numeric := WithoutChar(number, ',');
      ParseStat(number + suffix) == StatParts(numeric, suffix, DecimalPlaces(numeric))
  {
    var v := number + suffix;
    assert v[..|number|] == number && v[|number|..] == suffix;
  }
}

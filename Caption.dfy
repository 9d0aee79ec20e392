/** What the Instagram route derives from a post's caption: a category from its first hashtag, and
    a title from its first line with every hashtag removed. */
module Caption {
  import opened Web
  import opened JsText
  import opened RegexExec

  const DefaultCategory := "ChilliFlakes"
  const DefaultTitle := "Chilli Flakes Studio"
  const MaxTitleLength := 100

  /** `#\w` starts at `i`: where `/#(\w+)/` and `/#\w+/` can match. */
  predicate HashtagAt(s: string, i: nat) {
    i + 1 < |s| && s[i] == '#' && IsWordChar(s[i + 1])
  }

  /** No hashtag starts anywhere in `s`. */
  predicate NoHashtag(s: string) {
    forall i :: 0 <= i < |s| ==> !HashtagAt(s, i)
  }

  /** The leftmost hashtag at or after `i`. */
  function FirstHashtag(s: string, i: nat): (r: Option<nat>)
    requires i <= |s|
    ensures r.Some? ==> i <= r.value < |s| && HashtagAt(s, r.value)
    ensures r.Some? ==> forall k :: i <= k < r.value ==> !HashtagAt(s, k)
    ensures r.None? ==> forall k :: i <= k < |s| ==> !HashtagAt(s, k)
    decreases |s| - i
  {
    if i == |s| then None
    else if HashtagAt(s, i) then Some(i)
    else FirstHashtag(s, i + 1)
  }

  /** The length of the run of `\w` characters at `i`: what the greedy `\w+` takes. */
  function WordRun(s: string, i: nat): (n: nat)
    requires i <= |s|
    ensures i + n <= |s|
    ensures forall k :: i <= k < i + n ==> IsWordChar(s[k])
    ensures i + n < |s| ==> !IsWordChar(s[i + n])
    decreases |s| - i
  {
    if i < |s| && IsWordChar(s[i]) then 1 + WordRun(s, i + 1) else 0
  }

  /** `toUpperCase` of a `\w` character: only ASCII letters change. */
  function UpperWordChar(c: char): (u: char)
    ensures 'a' <= c <= 'z' ==> 'A' <= u <= 'Z' && u as int == c as int - 32
    ensures !('a' <= c <= 'z') ==> u == c
  {
    if 'a' <= c <= 'z' then (c as int - 32) as char else c
  }

  /** `w.charAt(0).toUpperCase() + w.slice(1)` for a word of `\w` characters. */
  function Capitalize(w: string): (r: string)
    ensures |r| == |w| && (w != [] ==> r[1..] == w[1..])
    ensures w != [] ==> r[0] == UpperWordChar(w[0])
    ensures r != [] ==> !('a' <= r[0] <= 'z')
  {
    if w == [] then [] else [UpperWordChar(w[0])] + w[1..]
  }

  /** `caption.match(/#(\w+)/)`: the word after the leftmost hashtag, if any. */
  function HashtagWord(caption: string): (word: Option<string>)
    ensures word.None? <==> FirstHashtag(caption, 0).None?
    ensures word.Some? ==>
      var k := FirstHashtag(caption, 0).value;
      && word.value == caption[k + 1..k + 1 + WordRun(caption, k + 1)]
      && word.value != [] && forall j :: 0 <= j < |word.value| ==> IsWordChar(word.value[j])
  {
    match FirstHashtag(caption, 0)
    case None => None
    case Some(k) => Some(caption[k + 1..k + 1 + WordRun(caption, k + 1)])
  }

  /** The default category is already capitalised. */
  lemma DefaultCategoryCapitalised()
    ensures Capitalize(DefaultCategory) == DefaultCategory
  {
    assert DefaultCategory[0] == 'C';
  }

  /** The word of the leftmost hashtag, or the default, with its first letter capitalised. */
  function Category(caption: string): (category: string)
    ensures category != [] && !('a' <= category[0] <= 'z')
    ensures HashtagWord(caption).None? ==> category == DefaultCategory
    ensures HashtagWord(caption).Some? ==>
      var word := HashtagWord(caption).value;
      && |category| == |word| && category[0] == UpperWordChar(word[0]) && category[1..] == word[1..]
      && forall j :: 0 <= j < |category| ==> IsWordChar(category[j])
  {
    match HashtagWord(caption)
    case None =>
      DefaultCategoryCapitalised();
      Capitalize(DefaultCategory)
    case Some(word) =>
      var category := Capitalize(word);
      assert forall j :: 1 <= j < |category| ==> category[j] == word[j];
      category
  }

  /** `s.replace(/#\w+/g, "")`: each hashtag with its whole word removed, scanning left to right. */
  function StripHashtags(s: string): (r: string)
    ensures |r| <= |s|
    ensures forall c :: c in r ==> c in s
    decreases |s|
  {
    if s == [] then []
    else if HashtagAt(s, 0) then StripHashtags(s[1 + WordRun(s, 1)..])
    else [s[0]] + StripHashtags(s[1..])
  }

  /** Where `/#\w+/` matches at `i`: the `#` and the whole word after it, which is also the group
      of `/#(\w+)/`. */
  function HashtagMatchAt(s: string, i: nat): (r: Option<Match>)
    ensures r.Some? <==> i <= |s| && HashtagAt(s, i)
    ensures r.Some? ==> r.value.start == i < r.value.end <= |s|
  {
    if i <= |s| && HashtagAt(s, i) then
      var n := WordRun(s, i + 1);
      Some(Match(i, i + 1 + n, [s[i + 1..i + 1 + n]]))
    else None
  }

  /** The hashtag pattern as a matcher for the exec loop. */
  function HashtagRegex(): Matcher {
    (s: string, i: nat) => HashtagMatchAt(s, i)
  }

  lemma HashtagRegexAnchored()
    ensures Anchored(HashtagRegex())
  {
    forall s: string, i: nat | i <= |s| && HashtagRegex()(s, i).Some?
      ensures HashtagRegex()(s, i).value.start == i < HashtagRegex()(s, i).value.end <= |s|
    {
      assert HashtagRegex()(s, i) == HashtagMatchAt(s, i);
    }
  }

  /** `caption.match(/#(\w+)/)` is the first match of the hashtag pattern the exec search finds from
      the start, and the word is its group. */
  lemma HashtagWordIsFirstMatch(caption: string)
    ensures Anchored(HashtagRegex())
    ensures var m := Exec(HashtagRegex(), caption, 0);
      && (m.None? <==> HashtagWord(caption).None?)
      && (m.Some? ==> HashtagWord(caption) == Some(m.value.groups[0]))
  {
    HashtagRegexAnchored();
    var f := HashtagRegex();
    assert forall j: nat :: f(caption, j) == HashtagMatchAt(caption, j);
    var m := Exec(f, caption, 0);
    match FirstHashtag(caption, 0)
    case None =>
      assert NoMatchIn(f, caption, 0, |caption| + 1);
    case Some(k) =>
      assert f(caption, k).Some?;
      assert m.Some? && m.value.start <= k;
      assert HashtagAt(caption, m.value.start);
      assert m.value.start == k;
  }

  /** The run of word characters from `i + k` is the same seen from `s` or from `s[i..]`. */
  lemma {:induction false} WordRunOfSuffix(s: string, i: nat, k: nat)
    requires i + k <= |s|
    ensures WordRun(s[i..], k) == WordRun(s, i + k)
    decreases |s| - i - k
  {
    if i + k < |s| {
      assert s[i..][k] == s[i + k];
      if IsWordChar(s[i + k]) {
        WordRunOfSuffix(s, i, k + 1);
      }
    }
  }

  /** Stripping is `replace(/#\w+/g, "")`: every hashtag the exec loop finds is removed and the text
      between hashtags is kept as it is, in its order. */
  lemma StripIsReplace(s: string)
    ensures Anchored(HashtagRegex())
    ensures StripHashtags(s) == ReplaceMatches(HashtagRegex(), s, 0, "")
  {
    StripFrom(s, 0);
    assert s[0..] == s;
  }

  /** Stripping the text from `i` on is the replacement continuing from `i`. */
  lemma {:induction false} StripFrom(s: string, i: nat)
    requires i <= |s|
    ensures Anchored(HashtagRegex())
    ensures StripHashtags(s[i..]) == ReplaceMatches(HashtagRegex(), s, i, "")
    decreases |s| - i
  {
    HashtagRegexAnchored();
    var f := HashtagRegex();
    var t := s[i..];
    assert f(s, i) == HashtagMatchAt(s, i);
    if i == |s| {
      assert NoMatchIn(f, s, i, |s| + 1) by {
        assert f(s, |s|) == HashtagMatchAt(s, |s|);
      }
    } else if HashtagAt(s, i) {
      StripStepHashtag(s, i);
    } else {
      StripFrom(s, i + 1);
      assert t == [s[i]] + s[i + 1..];
      ReplaceMatchesSkip(f, s, i, "");
    }
  }

  /** A hashtag at `i`: stripping drops it and goes on after its word, as the replacement does. */
  lemma {:induction false} StripStepHashtag(s: string, i: nat)
    requires i <= |s| && HashtagAt(s, i)
    ensures Anchored(HashtagRegex())
    ensures StripHashtags(s[i..]) == ReplaceMatches(HashtagRegex(), s, i, "")
    decreases |s| - i, 0
  {
    HashtagRegexAnchored();
    var f := HashtagRegex();
    var e := i + 1 + WordRun(s, i + 1);
    StripDropsHashtag(s, i, e);
    assert f(s, i).Some? && f(s, i).value.end == e by {
      assert f(s, i) == HashtagMatchAt(s, i);
    }
    ReplaceMatchesDrop(f, s, i, e);
    StripFrom(s, e);
  }

  /** Stripping from a hashtag at `i` is stripping from the end of its word on. */
  lemma StripDropsHashtag(s: string, i: nat, e: nat)
    requires i <= |s| && HashtagAt(s, i) && e == i + 1 + WordRun(s, i + 1)
    ensures e <= |s|
    ensures StripHashtags(s[i..]) == StripHashtags(s[e..])
  {
    var t := s[i..];
    assert HashtagAt(t, 0) by {
      assert t[0] == s[i] && t[1] == s[i + 1];
    }
    assert StripHashtags(t) == StripHashtags(t[1 + WordRun(t, 1)..]);
    assert 1 + WordRun(t, 1) == e - i by {
      WordRunOfSuffix(s, i, 1);
    }
    assert t[e - i..] == s[e..];
  }

  /** A text that does not start with a word character still does not after stripping. */
  lemma {:induction false} StripKeepsNonWordStart(s: string)
    requires s != [] ==> !IsWordChar(s[0])
    ensures StripHashtags(s) != [] ==> !IsWordChar(StripHashtags(s)[0])
    decreases |s|
  {
    if s != [] && HashtagAt(s, 0) {
      StripKeepsNonWordStart(s[1 + WordRun(s, 1)..]);
    }
  }

  /** No hashtag survives stripping: a `#` left in place is followed by a non-word character. */
  lemma {:induction false} StripLeavesNoHashtag(s: string)
    ensures NoHashtag(StripHashtags(s))
    decreases |s|
  {
    if s != [] {
      if HashtagAt(s, 0) {
        StripLeavesNoHashtag(s[1 + WordRun(s, 1)..]);
      } else {
        var rest := StripHashtags(s[1..]);
        StripLeavesNoHashtag(s[1..]);
        if s[0] == '#' {
          StripKeepsNonWordStart(s[1..]);
        }
        var r := [s[0]] + rest;
        forall i | 0 <= i < |r| ensures !HashtagAt(r, i) {
          if i > 0 {
            assert r[i] == rest[i - 1];
            assert i + 1 < |r| ==> r[i + 1] == rest[i];
            assert !HashtagAt(rest, i - 1);
          }
        }
      }
    }
  }

  /** A text without hashtags is left as it is. */
  lemma {:induction false} StripWithoutHashtag(s: string)
    requires NoHashtag(s)
    ensures StripHashtags(s) == s
    decreases |s|
  {
    if s != [] {
      assert !HashtagAt(s, 0);
      var t := s[1..];
      assert NoHashtag(t) by {
        forall i | 0 <= i < |t| ensures !HashtagAt(t, i) {
          assert !HashtagAt(s, i + 1);
        }
      }
      StripWithoutHashtag(t);
      assert s == [s[0]] + t;
    }
  }

  /** Stripping hashtags twice is stripping them once. */
  lemma StripIdempotent(s: string)
    ensures StripHashtags(StripHashtags(s)) == StripHashtags(s)
  {
    StripLeavesNoHashtag(s);
    StripWithoutHashtag(StripHashtags(s));
  }

  /** A piece of a text without hashtags has none either. */
  lemma PieceHasNoHashtag(s: string, a: nat, b: nat)
    requires a <= b <= |s| && NoHashtag(s)
    ensures NoHashtag(s[a..b])
  {
    var t := s[a..b];
    forall i | 0 <= i < |t| ensures !HashtagAt(t, i) {
      assert !HashtagAt(s, a + i);
    }
  }

  /** The default title is a short single line without hashtags. */
  lemma DefaultTitleClean()
    ensures DefaultTitle != [] && |DefaultTitle| <= MaxTitleLength
    ensures '\n' !in DefaultTitle && NoHashtag(DefaultTitle)
  {
    assert forall c :: c in DefaultTitle ==> c != '#' && c != '\n';
  }

  /** A prefix of a piece of a single line without hashtags is itself such a line. */
  lemma PrefixOfPieceIsClean(s: string, t: string, cut: string)
    requires NoHashtag(s) && '\n' !in s && IsPieceOf(t, s) && cut <= t
    ensures NoHashtag(cut) && '\n' !in cut
  {
    var a, b :| 0 <= a <= b <= |s| && s[a..b] == t;
    assert s[a..a + |cut|] == cut;
    PieceHasNoHashtag(s, a, a + |cut|);
    assert forall c :: c in cut ==> c in s;
  }

  /** `caption.split("\n")[0].replace(/#\w+/g, "").trim().substring(0, 100) || "Chilli Flakes Studio"` */
  function Title(caption: string): (title: string)
    ensures title != [] && |title| <= MaxTitleLength
    ensures '\n' !in title
    ensures NoHashtag(title)
    ensures var t := Trim(StripHashtags(FirstLine(caption)));
      if t == [] then title == DefaultTitle
      else title <= t && |title| == if |t| < MaxTitleLength then |t| else MaxTitleLength
  {
    var stripped := StripHashtags(FirstLine(caption));
    var t := Trim(stripped);
    var cut := if |t| <= MaxTitleLength then t else t[..MaxTitleLength];
    if cut == [] then
      DefaultTitleClean();
      DefaultTitle
    else
      StripLeavesNoHashtag(FirstLine(caption));
      PrefixOfPieceIsClean(stripped, t, cut);
      cut
  }
}

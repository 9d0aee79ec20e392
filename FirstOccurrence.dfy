/** Deduplication that keeps the first element seen for each key, in the order of first sight:
    what the YouTube routes do with `if (!videoIds.includes(id)) videoIds.push(id)` and with
    `if (!seenIds.has(videoId)) { seenIds.add(videoId); videos.push(...) }`. */
module FirstOccurrence {

  /** The keys of `xs`, in order. */
  function KeysOf<T, K>(xs: seq<T>, key: T -> K): seq<K> {
    seq(|xs|, i requires 0 <= i < |xs| => key(xs[i]))
  }

  /** No two elements of `xs` share a key. */
  predicate DistinctKeys<T, K(==)>(xs: seq<T>, key: T -> K) {
    forall i, j :: 0 <= i < j < |xs| ==> key(xs[i]) != key(xs[j])
  }

  /** The element at `j` is the first of `xs` with its key. */
  predicate IsFirstOccurrence<T, K(==)>(xs: seq<T>, key: T -> K, j: nat)
    requires j < |xs|
  {
    forall i :: 0 <= i < j ==> key(xs[i]) != key(xs[j])
  }

  /** The dedup loop as it runs: walk `xs` left to right and append each element whose key the
      result does not hold yet. */
  function FirstByKey<T, K(==,!new)>(xs: seq<T>, key: T -> K): (r: seq<T>)
    ensures |r| <= |xs|
    ensures xs != [] ==> r != []
    ensures DistinctKeys(r, key)
    ensures forall k :: k in KeysOf(r, key) <==> k in KeysOf(xs, key)
    decreases |xs|
  {
    if xs == [] then []
    else
      var init, last := xs[..|xs| - 1], xs[|xs| - 1];
      var r := FirstByKey(init, key);
      assert KeysOf(xs, key) == KeysOf(init, key) + [key(last)];
      if key(last) in KeysOf(r, key) then r
      else
        assert forall i :: 0 <= i < |r| ==> KeysOf(r, key)[i] == key(r[i]);
        assert KeysOf(r + [last], key) == KeysOf(r, key) + [key(last)];
        r + [last]
  }

  /** Appending to the dedup loop's input: the new element is kept iff no kept element has its key. */
  lemma FirstByKeySnoc<T, K(!new)>(xs: seq<T>, x: T, key: T -> K)
    ensures var r := FirstByKey(xs, key);
      FirstByKey(xs + [x], key) == if key(x) in KeysOf(r, key) then r else r + [x]
  {
    assert (xs + [x])[..|xs|] == xs;
  }

  /** The first element is always kept. */
  lemma {:induction false} FirstByKeyHead<T, K(!new)>(xs: seq<T>, key: T -> K)
    requires xs != []
    ensures FirstByKey(xs, key)[0] == xs[0]
    decreases |xs|
  {
    var init := xs[..|xs| - 1];
    if init != [] {
      FirstByKeyHead(init, key);
      assert init[0] == xs[0];
    }
  }

  /** Every element kept is an element of the input. */
  lemma {:induction false} FirstByKeyElements<T, K(!new)>(xs: seq<T>, key: T -> K)
    ensures forall x :: x in FirstByKey(xs, key) ==> x in xs
    decreases |xs|
  {
    if xs != [] {
      var init := xs[..|xs| - 1];
      FirstByKeyElements(init, key);
      assert forall x :: x in init ==> x in xs;
    }
  }

  /** The keys of a longer sequence. */
  lemma KeysOfSnoc<T, K>(xs: seq<T>, x: T, key: T -> K)
    ensures KeysOf(xs + [x], key) == KeysOf(xs, key) + [key(x)]
  {
  }

  /** Reference definition: the elements among the first `n` of `xs` that are the first of `xs`
      with their key, in their order in `xs`. */
  function FirstOccurrences<T, K(==)>(xs: seq<T>, key: T -> K, n: nat): seq<T>
    requires n <= |xs|
  {
    if n == 0 then []
    else FirstOccurrences(xs, key, n - 1) + (if IsFirstOccurrence(xs, key, n - 1) then [xs[n - 1]] else [])
  }

  /** Only the first `n` elements matter to the reference definition. */
  lemma {:induction false} FirstOccurrencesPrefix<T, K>(xs: seq<T>, key: T -> K, n: nat, m: nat)
    requires n <= m <= |xs|
    ensures FirstOccurrences(xs, key, n) == FirstOccurrences(xs[..m], key, n)
  {
    if n > 0 {
      FirstOccurrencesPrefix(xs, key, n - 1, m);
      assert IsFirstOccurrence(xs, key, n - 1) == IsFirstOccurrence(xs[..m], key, n - 1);
    }
  }

  /** The dedup loop keeps exactly the first occurrences of `xs`, in the order of `xs`. */
  lemma {:induction false} FirstByKeyIsFirstOccurrences<T, K(!new)>(xs: seq<T>, key: T -> K)
    ensures FirstByKey(xs, key) == FirstOccurrences(xs, key, |xs|)
    decreases |xs|
  {
    if xs != [] {
      var n := |xs|;
      var init := xs[..n - 1];
      FirstByKeyIsFirstOccurrences(init, key);
      FirstOccurrencesPrefix(xs, key, n - 1, n - 1);
      assert xs[..n - 1] == init;
      assert KeysOf(init, key)[..] == KeysOf(init, key);
      if IsFirstOccurrence(xs, key, n - 1) {
        forall i | 0 <= i < |init| ensures KeysOf(init, key)[i] != key(xs[n - 1]) {
          assert key(xs[i]) != key(xs[n - 1]);
        }
      } else {
        var i :| 0 <= i < n - 1 && key(xs[i]) == key(xs[n - 1]);
        assert KeysOf(init, key)[i] == key(xs[n - 1]);
      }
    }
  }

  /** Where keys are already distinct, the dedup loop keeps everything. */
  lemma {:induction false} FirstByKeyOfDistinct<T, K(!new)>(xs: seq<T>, key: T -> K)
    requires DistinctKeys(xs, key)
    ensures FirstByKey(xs, key) == xs
    decreases |xs|
  {
    if xs != [] {
      var init := xs[..|xs| - 1];
      FirstByKeyOfDistinct(init, key);
      forall i | 0 <= i < |init| ensures KeysOf(init, key)[i] != key(xs[|xs| - 1]) {
        assert key(xs[i]) != key(xs[|xs| - 1]);
      }
      assert xs == init + [xs[|xs| - 1]];
    }
  }

  /** The key-is-the-value case: distinct values in order of first occurrence. */
  function Distinct<T(==,!new)>(xs: seq<T>): (r: seq<T>)
    ensures forall x :: x in r <==> x in xs
    ensures forall i, j :: 0 <= i < j < |r| ==> r[i] != r[j]
  {
    var r := FirstByKey(xs, Self);
    assert KeysOf(r, Self) == r && KeysOf(xs, Self) == xs;
    r
  }

  function Self<T>(x: T): T { x }

  /** Appending to the dedup loop's input: the new element is kept iff it was not seen before. */
  lemma DistinctSnoc<T(!new)>(xs: seq<T>, x: T)
    ensures Distinct(xs + [x]) == if x in Distinct(xs) then Distinct(xs) else Distinct(xs) + [x]
  {
    assert (xs + [x])[..|xs|] == xs;
    assert KeysOf(Distinct(xs), Self) == Distinct(xs);
  }
}

/** Searches over sequences, and the outcome sequences that stand for repeated fetch attempts. */
module Seqs {
  import opened Wrappers

  /** The index of the first element satisfying `p`, if any. */
  function FirstIndex<T>(s: seq<T>, p: T -> bool): (r: Option<nat>)
    ensures r.Some? ==> r.value < |s| && p(s[r.value])
    ensures r.Some? ==> forall j :: 0 <= j < r.value ==> !p(s[j])
    ensures r.None? <==> forall j :: 0 <= j < |s| ==> !p(s[j])
  {
    if s == [] then None
    else if p(s[0]) then Some(0)
    else match FirstIndex(s[1..], p)
      case Some(i) => Some(i + 1)
      case None => None
  }

  /** An index is the first one satisfying `p` when `p` holds there and nowhere before. */
  lemma FirstIndexAt<T>(s: seq<T>, p: T -> bool, i: nat)
    requires i < |s| && p(s[i]) && forall j :: 0 <= j < i ==> !p(s[j])
    ensures FirstIndex(s, p) == Some(i)
  {
    var r := FirstIndex(s, p);
    assert r.Some?;
    assert !(r.value < i) && !(r.value > i);
  }

  /** A scan of `s` that has passed `i` elements without a match: extending it by one
      element that does not match keeps it without a match, and stopping at one that does
      match finds the first match of the whole sequence. */
  lemma FirstIndexScan<T>(s: seq<T>, p: T -> bool, i: nat)
    requires i < |s| && FirstIndex(s[..i], p).None?
    ensures !p(s[i]) ==> FirstIndex(s[..i + 1], p).None?
    ensures p(s[i]) ==> FirstIndex(s, p) == Some(i)
  {
    forall j | 0 <= j < i ensures !p(s[j]) { assert s[..i][j] == s[j]; }
    if p(s[i]) {
      FirstIndexAt(s, p, i);
    } else {
      var t := s[..i + 1];
      forall j | 0 <= j < |t| ensures !p(t[j]) { assert t[j] == s[j]; }
    }
  }

  /** The elements of `s` that satisfy `p`, in their original order. */
  function Filter<T>(s: seq<T>, p: T -> bool): (r: seq<T>)
    ensures |r| <= |s|
    ensures forall i :: 0 <= i < |r| ==> r[i] in s && p(r[i])
    ensures forall i :: 0 <= i < |s| && p(s[i]) ==> s[i] in r
  {
    if s == [] then []
    else if p(s[0]) then [s[0]] + Filter(s[1..], p)
    else Filter(s[1..], p)
  }

  /** Filtering leaves nothing exactly when no element satisfies `p`. */
  lemma FilterEmpty<T>(s: seq<T>, p: T -> bool)
    ensures Filter(s, p) == [] <==> forall i :: 0 <= i < |s| ==> !p(s[i])
  {
    var r := Filter(s, p);
    if r != [] {
      assert r[0] in s && p(r[0]);
    }
  }

  /** A prefix one element longer. */
  lemma PrefixStep<T>(s: seq<T>, i: nat)
    requires i < |s|
    ensures s[..i + 1] == s[..i] + [s[i]]
  {
  }

  /** Filtering a sequence extended by one element. */
  lemma {:induction false} FilterAppend<T>(s: seq<T>, x: T, p: T -> bool)
    ensures Filter(s + [x], p) == Filter(s, p) + (if p(x) then [x] else [])
    decreases |s|
  {
    if s == [] {
      assert [] + [x] == [x];
    } else {
      assert (s + [x])[1..] == s[1..] + [x];
      FilterAppend(s[1..], x, p);
    }
  }

  /** What attempt number `k` (0-based) of a fetch produced: `None` is a failed attempt.
      An environment that has no recorded outcome for an attempt fails it. */
  function Attempt<T>(outcomes: seq<Option<T>>, k: nat): Option<T> {
    if k < |outcomes| then outcomes[k] else None
  }

  /** The first successful attempt among attempts `k` .. `n - 1`. */
  function FirstSuccessFrom<T>(outcomes: seq<Option<T>>, k: nat, n: int): (r: Option<nat>)
    decreases n - k
    ensures r.Some? ==> k <= r.value < n && Attempt(outcomes, r.value).Some?
    ensures r.Some? ==> forall j :: k <= j < r.value ==> Attempt(outcomes, j).None?
    ensures r.None? <==> forall j :: k <= j < n ==> Attempt(outcomes, j).None?
  {
    if n <= k then None
    else if Attempt(outcomes, k).Some? then Some(k)
    else FirstSuccessFrom(outcomes, k + 1, n)
  }

  /** The first successful attempt among the first `n` attempts. */
  function FirstSuccess<T>(outcomes: seq<Option<T>>, n: int): Option<nat> {
    FirstSuccessFrom(outcomes, 0, n)
  }

  /** The map built by visiting `items` in order and storing the entry each one yields,
      a later entry replacing an earlier one under the same key. */
  function LastWins<T, K(==), V>(items: seq<T>, entry: T -> Option<(K, V)>): map<K, V>
    decreases |items|
  {
    if items == [] then map[]
    else
      var m := LastWins(items[..|items| - 1], entry);
      match entry(items[|items| - 1])
      case Some((k, v)) => m[k := v]
      case None => m
  }

  /** Visiting one more item stores that item's entry. */
  lemma LastWinsStep<T, K, V>(items: seq<T>, entry: T -> Option<(K, V)>, i: nat)
    requires i < |items|
    ensures LastWins(items[..i + 1], entry) ==
      match entry(items[i])
      case Some((k, v)) => LastWins(items[..i], entry)[k := v]
      case None => LastWins(items[..i], entry)
  {
    assert items[..i + 1][..i] == items[..i];
  }

  /** The item yields an entry under key `k`. */
  ghost predicate YieldsKey<T, K, V>(entry: T -> Option<(K, V)>, x: T, k: K) {
    entry(x).Some? && entry(x).value.0 == k
  }

  /** The keys of the map are exactly the keys the items yield. */
  lemma {:induction false} LastWinsKeys<T, K, V>(items: seq<T>, entry: T -> Option<(K, V)>)
    ensures forall k :: k in LastWins(items, entry) <==>
      exists i | 0 <= i < |items| :: YieldsKey(entry, items[i], k)
    decreases |items|
  {
    if items != [] {
      var n := |items| - 1;
      var init := items[..n];
      LastWinsKeys(init, entry);
      forall k ensures k in LastWins(items, entry) <==> exists i | 0 <= i < |items| :: YieldsKey(entry, items[i], k) {
        if k in LastWins(items, entry) && !YieldsKey(entry, items[n], k) {
          assert k in LastWins(init, entry);
          var i :| 0 <= i < |init| && YieldsKey(entry, init[i], k);
          assert init[i] == items[i];
        }
        if exists i | 0 <= i < |items| :: YieldsKey(entry, items[i], k) {
          var i :| 0 <= i < |items| && YieldsKey(entry, items[i], k);
          if i < n {
            assert init[i] == items[i];
          }
        }
      }
    }
  }

  /** The value under a key comes from the last item yielding that key. */
  lemma {:induction false} LastWinsValue<T, K, V>(items: seq<T>, entry: T -> Option<(K, V)>, i: nat)
    requires i < |items| && entry(items[i]).Some?
    requires forall j :: i < j < |items| ==> !YieldsKey(entry, items[j], entry(items[i]).value.0)
    ensures entry(items[i]).value.0 in LastWins(items, entry)
    ensures LastWins(items, entry)[entry(items[i]).value.0] == entry(items[i]).value.1
    decreases |items|
  {
    if i < |items| - 1 {
      var init := items[..|items| - 1];
      assert init[i] == items[i];
      forall j | i < j < |init| ensures !YieldsKey(entry, init[j], entry(init[i]).value.0) {
        assert init[j] == items[j];
      }
      LastWinsValue(init, entry, i);
      assert !YieldsKey(entry, items[|items| - 1], entry(items[i]).value.0);
    }
  }

  /** Every value of the map is the entry of some item under that key. */
  lemma {:induction false} LastWinsSources<T, K, V>(items: seq<T>, entry: T -> Option<(K, V)>)
    ensures forall k :: k in LastWins(items, entry) ==>
      exists i | 0 <= i < |items| :: entry(items[i]) == Some((k, LastWins(items, entry)[k]))
    decreases |items|
  {
    if items != [] {
      var n := |items| - 1;
      var init := items[..n];
      LastWinsSources(init, entry);
      forall k | k in LastWins(items, entry)
        ensures exists i | 0 <= i < |items| :: entry(items[i]) == Some((k, LastWins(items, entry)[k]))
      {
        if entry(items[n]).Some? && entry(items[n]).value.0 == k {
          assert entry(items[n]) == Some((k, LastWins(items, entry)[k]));
        } else {
          var i :| 0 <= i < |init| && entry(init[i]) == Some((k, LastWins(init, entry)[k]));
          assert init[i] == items[i];
        }
      }
    }
  }

  /** The results of `f` over `xs` in order, up to (not including) the first that raises. */
  function OkPrefix<T, U>(xs: seq<T>, f: T -> Result<U>): (r: seq<U>)
    ensures |r| <= |xs|
    decreases |xs|
  {
    if xs == [] then []
    else match f(xs[0])
      case Raised(_) => []
      case Ok(y) => [y] + OkPrefix(xs[1..], f)
  }

  /** Dropping one item from the front: the first item's result, then the rest. */
  lemma OkPrefixStep<T, U>(xs: seq<T>, f: T -> Result<U>, i: nat)
    requires i < |xs| && f(xs[i]).Ok?
    ensures OkPrefix(xs[i..], f) == [f(xs[i]).value] + OkPrefix(xs[i + 1..], f)
  {
    assert xs[i..][1..] == xs[i + 1..];
  }

  /** Nothing more is collected once an item raises. */
  lemma OkPrefixStop<T, U>(xs: seq<T>, f: T -> Result<U>, i: nat)
    requires i < |xs| && f(xs[i]).Raised?
    ensures OkPrefix(xs[i..], f) == []
  {
    assert xs[i..][0] == xs[i];
  }

  /** Every item before the break yields its entry, and the break is at the first item
      that raises. */
  lemma {:induction false} OkPrefixShape<T, U>(xs: seq<T>, f: T -> Result<U>)
    ensures var r := OkPrefix(xs, f);
      (forall k :: 0 <= k < |r| ==> f(xs[k]) == Ok(r[k])) &&
      (|r| < |xs| ==> f(xs[|r|]).Raised?)
    decreases |xs|
  {
    if xs != [] && f(xs[0]).Ok? {
      OkPrefixShape(xs[1..], f);
      var r := OkPrefix(xs, f);
      var t := OkPrefix(xs[1..], f);
      assert r == [f(xs[0]).value] + t;
      forall k | 0 <= k < |r|
        ensures f(xs[k]) == Ok(r[k])
      {
        if k > 0 {
          assert xs[k] == xs[1..][k - 1];
        }
      }
      if |r| < |xs| {
        assert xs[|r|] == xs[1..][|t|];
      }
    }
  }

  /** Nothing is dropped exactly when no item raises. */
  lemma OkPrefixComplete<T, U>(xs: seq<T>, f: T -> Result<U>)
    ensures |OkPrefix(xs, f)| == |xs| <==> forall k :: 0 <= k < |xs| ==> f(xs[k]).Ok?
  {
    OkPrefixShape(xs, f);
  }
}

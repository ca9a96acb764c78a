/** Counting and ordering facts shared by the two newest-first feeds.

    Both feeds keep a bounded window of the newest items while they read more
    logs.  The proofs never compare sequences element by element: they count how
    many kept items are strictly newer than a given stamp.  */
module FeedOrder {

  /** How many items of `s` have a key strictly greater than `x`. */
  function CountAbove<T>(s: seq<T>, key: T -> int, x: int): (n: nat)
    ensures n <= |s|
  {
    if s == [] then 0
    else CountAbove(s[..|s|-1], key, x) + (if key(s[|s|-1]) > x then 1 else 0)
  }

  /** Newest first: keys never increase. */
  predicate Descending<T>(s: seq<T>, key: T -> int)
  {
    forall i, j :: 0 <= i < j < |s| ==> key(s[i]) >= key(s[j])
  }

  lemma {:induction false} CountAboveConcat<T>(a: seq<T>, b: seq<T>, key: T -> int, x: int)
    ensures CountAbove(a + b, key, x) == CountAbove(a, key, x) + CountAbove(b, key, x)
  {
    if b == [] {
      assert a + b == a;
    } else {
      var front := b[..|b|-1];
      assert (a + b)[..|a + b|-1] == a + front;
      CountAboveConcat(a, front, key, x);
    }
  }

  lemma {:induction false} CountAboveAll<T>(s: seq<T>, key: T -> int, x: int)
    requires forall i :: 0 <= i < |s| ==> key(s[i]) > x
    ensures CountAbove(s, key, x) == |s|
  {
    if s != [] {
      CountAboveAll(s[..|s|-1], key, x);
    }
  }

  lemma {:induction false} CountAboveNone<T>(s: seq<T>, key: T -> int, x: int)
    requires forall i :: 0 <= i < |s| ==> key(s[i]) <= x
    ensures CountAbove(s, key, x) == 0
  {
    if s != [] {
      CountAboveNone(s[..|s|-1], key, x);
    }
  }

  /** In a newest-first sequence, at least `n` items are above `x` exactly when the n-th is. */
  lemma {:induction false} CountAboveDescending<T>(s: seq<T>, key: T -> int, x: int, n: nat)
    requires Descending(s, key)
    requires 1 <= n <= |s|
    ensures CountAbove(s, key, x) >= n <==> key(s[n-1]) > x
  {
    var m := if key(s[n-1]) > x then n else n - 1;
    forall i | 0 <= i < m ensures key(s[n-1]) > x ==> key(s[..m][i]) > x {}
    forall i | 0 <= i < |s| - m ensures key(s[n-1]) <= x ==> key(s[m..][i]) <= x {
      assert s[m..][i] == s[m+i];
    }
    CountAboveSplit(s, m, key, x);
    if key(s[n-1]) > x {
      CountAboveAll(s[..m], key, x);
    } else {
      CountAboveNone(s[m..], key, x);
    }
  }

  lemma CountAboveSplit<T>(s: seq<T>, k: nat, key: T -> int, x: int)
    requires k <= |s|
    ensures CountAbove(s, key, x) == CountAbove(s[..k], key, x) + CountAbove(s[k..], key, x)
  {
    assert s == s[..k] + s[k..];
    CountAboveConcat(s[..k], s[k..], key, x);
  }

  lemma CountAboveLast<T>(s: seq<T>, key: T -> int, x: int)
    requires s != []
    ensures CountAbove(s, key, x) == CountAbove(s[..|s|-1], key, x) + (if key(s[|s|-1]) > x then 1 else 0)
  {
  }

  /** Takes one occurrence of `e` out. */
  lemma TakeOut<T>(s: seq<T>, e: T, key: T -> int, x: int) returns (rest: seq<T>)
    requires e in s
    ensures multiset(rest) == multiset(s) - multiset{e} && |rest| == |s| - 1
    ensures CountAbove(s, key, x) == CountAbove(rest, key, x) + (if key(e) > x then 1 else 0)
  {
    var j :| 0 <= j < |s| && s[j] == e;
    rest := s[..j] + s[j+1..];
    assert s == s[..j] + [e] + s[j+1..];
    CountAboveConcat(s[..j] + [e], s[j+1..], key, x);
    CountAboveConcat(s[..j], [e], key, x);
    CountAboveConcat(s[..j], s[j+1..], key, x);
  }

  lemma {:induction false} CountAbovePermutation<T>(s: seq<T>, t: seq<T>, key: T -> int, x: int)
    requires multiset(s) == multiset(t)
    ensures CountAbove(s, key, x) == CountAbove(t, key, x)
    decreases |s|
  {
    if s == [] {
      assert |multiset(t)| == 0;
    } else {
      hide CountAbove;
      var last := s[|s|-1];
      assert last in multiset(t);
      var rest := TakeOut(t, last, key, x);
      FrontCount(s);
      CountAbovePermutation(s[..|s|-1], rest, key, x);
      CountAboveLast(s, key, x);
    }
  }

  lemma {:induction false} CountAboveMonotone<T>(s: seq<T>, key: T -> int, x: int, y: int)
    requires x <= y
    ensures CountAbove(s, key, y) <= CountAbove(s, key, x)
  {
    if s != [] {
      CountAboveMonotone(s[..|s|-1], key, x, y);
    }
  }

  lemma DescendingConcat<T>(a: seq<T>, b: seq<T>, key: T -> int)
    requires Descending(a, key) && Descending(b, key)
    requires forall i, j :: 0 <= i < |a| && 0 <= j < |b| ==> key(a[i]) >= key(b[j])
    ensures Descending(a + b, key)
  {
  }

  /** Inserts before the first item whose key is no larger. */
  function InsertByKey<T>(e: T, s: seq<T>, key: T -> int): (t: seq<T>)
    requires Descending(s, key)
    ensures Descending(t, key) && multiset(t) == multiset(s) + multiset{e}
  {
    if s == [] || key(e) >= key(s[0]) then
      ItemInFront(e, s, key);
      [e] + s
    else
      var rest := InsertByKey(e, s[1..], key);
      ItemBehind(s, e, rest, key);
      [s[0]] + rest
  }

  lemma ItemInFront<T>(e: T, s: seq<T>, key: T -> int)
    requires Descending(s, key) && (s != [] ==> key(e) >= key(s[0]))
    ensures Descending([e] + s, key)
  {
    forall j | 0 <= j < |s| ensures key(e) >= key(s[j]) {
      assert 0 < j ==> key(s[0]) >= key(s[j]);
    }
    DescendingConcat([e], s, key);
  }

  lemma ItemBehind<T>(s: seq<T>, e: T, rest: seq<T>, key: T -> int)
    requires Descending(s, key) && s != [] && key(e) < key(s[0])
    requires Descending(rest, key) && multiset(rest) == multiset(s[1..]) + multiset{e}
    ensures Descending([s[0]] + rest, key)
    ensures multiset([s[0]] + rest) == multiset(s) + multiset{e}
  {
    assert s == [s[0]] + s[1..];
    forall j | 0 <= j < |rest| ensures key(s[0]) >= key(rest[j]) {
      assert rest[j] in multiset(rest);
      assert rest[j] == e || rest[j] in s[1..];
    }
    DescendingConcat([s[0]], rest, key);
  }

  /** Splits a sequence around one occurrence of `e`. */
  lemma SplitAround<T>(s: seq<T>, e: T) returns (pre: seq<T>, post: seq<T>)
    requires e in s
    ensures s == pre + [e] + post && |pre + post| == |s| - 1
    ensures multiset(pre + post) == multiset(s) - multiset{e}
  {
    var j :| 0 <= j < |s| && s[j] == e;
    pre, post := s[..j], s[j+1..];
    assert s == pre + [e] + post;
  }

  /** A sub-multiset that misses nothing is the whole multiset. */
  lemma NothingMissed<T>(part: multiset<T>, whole: multiset<T>)
    requires part <= whole
    requires forall e :: e in whole ==> part[e] >= whole[e]
    ensures part == whole
  {
    forall e ensures part[e] == whole[e] {}
  }

  /** What a part leaves of the whole. */
  lemma {:induction false} Remainder<T>(part: seq<T>, whole: seq<T>) returns (rest: seq<T>)
    requires multiset(part) <= multiset(whole)
    ensures multiset(whole) == multiset(part) + multiset(rest)
    decreases |part|
  {
    if part == [] {
      rest := whole;
      assert multiset(part) == multiset{};
    } else {
      var e, front := part[|part|-1], part[..|part|-1];
      FrontCount(part);
      assert e in multiset(part);
      var pre, post := SplitAround(whole, e);
      FewerLeft(multiset(part), multiset(whole), e);
      rest := Remainder(front, pre + post);
      assert multiset(whole) == multiset(pre + post) + multiset{e};
      assert multiset(part) == multiset(front) + multiset{e};
    }
  }

  lemma FewerLeft<T>(part: multiset<T>, whole: multiset<T>, e: T)
    requires part <= whole && e in part
    ensures part - multiset{e} <= whole - multiset{e}
  {
  }

  lemma SplitCount<T>(s: seq<T>, k: nat)
    requires k <= |s|
    ensures multiset(s) == multiset(s[..k]) + multiset(s[k..])
  {
    assert s == s[..k] + s[k..];
  }

  lemma TailCount<T>(s: seq<T>)
    requires s != []
    ensures multiset(s[1..]) == multiset(s) - multiset{s[0]}
  {
    assert s == [s[0]] + s[1..];
  }

  lemma FrontCount<T>(s: seq<T>)
    requires s != []
    ensures multiset(s[..|s|-1]) == multiset(s) - multiset{s[|s|-1]}
  {
    assert s == s[..|s|-1] + [s[|s|-1]];
  }

  lemma LastIsCounted<T>(s: seq<T>)
    requires s != []
    ensures multiset(s)[s[|s|-1]] > 0
  {
    assert s[|s|-1] in s;
  }

  lemma SubMultisetLength<T>(s: seq<T>, t: seq<T>)
    requires multiset(s) <= multiset(t)
    ensures |s| <= |t|
  {
    assert multiset(t) == multiset(s) + (multiset(t) - multiset(s));
    assert |multiset(t)| == |multiset(s)| + |multiset(t) - multiset(s)|;
  }

  lemma SubMultisetEqual<T>(s: seq<T>, t: seq<T>)
    requires multiset(s) <= multiset(t) && |s| == |t|
    ensures multiset(s) == multiset(t)
  {
    assert multiset(t) == multiset(s) + (multiset(t) - multiset(s));
    assert |multiset(t)| == |multiset(s)| + |multiset(t) - multiset(s)|;
    assert multiset(t) - multiset(s) == multiset{};
  }

  lemma SameMultisetSameLength<T>(s: seq<T>, t: seq<T>)
    requires multiset(s) == multiset(t)
    ensures |s| == |t|
  {
    assert |multiset(s)| == |multiset(t)|;
  }

  /** Two newest-first sequences with equal counts above every stamp have equal keys throughout. */
  lemma EqualCountsEqualKeys<T>(s: seq<T>, t: seq<T>, key: T -> int)
    requires Descending(s, key) && Descending(t, key)
    requires |s| == |t|
    requires forall x :: CountAbove(s, key, x) == CountAbove(t, key, x)
    ensures forall i :: 0 <= i < |s| ==> key(s[i]) == key(t[i])
  {
    forall i | 0 <= i < |s| ensures key(s[i]) == key(t[i]) {
      NotBelow(s, t, key, i);
      NotBelow(t, s, key, i);
    }
  }

  lemma NotBelow<T>(s: seq<T>, t: seq<T>, key: T -> int, i: nat)
    requires Descending(s, key) && Descending(t, key)
    requires i < |s| && |s| == |t|
    requires CountAbove(s, key, key(s[i]) - 1) == CountAbove(t, key, key(s[i]) - 1)
    ensures key(s[i]) <= key(t[i])
  {
    hide Descending, CountAbove;
    CountAboveDescending(s, key, key(s[i]) - 1, i + 1);
    CountAboveDescending(t, key, key(s[i]) - 1, i + 1);
  }
}

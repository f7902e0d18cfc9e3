/** The heuristic ordering applied before packing (line 158): a stable sort
    of the sizes by height, tallest first. Python's reversed sort is still
    stable, so entries of equal height keep their original order. */
module HeightOrder {
  import opened LayoutTypes

  predicate HeightsNonIncreasing(s: seq<Size>)
  {
    forall i, j :: 0 <= i < j < |s| ==> s[i].h >= s[j].h
  }

  /** The entries of `s` whose height is `k`, in their order in `s`. */
  function WithHeight(s: seq<Size>, k: int): seq<Size>
  {
    if |s| == 0 then []
    else (if s[0].h == k then [s[0]] else []) + WithHeight(s[1..], k)
  }

  lemma {:induction false} WithHeightCons(x: Size, s: seq<Size>, k: int)
    ensures WithHeight([x] + s, k) == (if x.h == k then [x] else []) + WithHeight(s, k)
  {
    assert ([x] + s)[1..] == s;
  }

  /** An entry of height `k` in `s` shows up in the height-`k` entries. */
  lemma {:induction false} WithHeightHas(s: seq<Size>, i: nat)
    requires i < |s|
    ensures |WithHeight(s, s[i].h)| > 0
    decreases i
  {
    if i > 0 {
      WithHeightHas(s[1..], i - 1);
    }
  }

  /** Entries lower than `k` contribute nothing of height `k`. */
  lemma {:induction false} WithHeightNone(s: seq<Size>, k: int)
    requires forall i :: 0 <= i < |s| ==> s[i].h < k
    ensures WithHeight(s, k) == []
    decreases |s|
  {
    if |s| > 0 {
      WithHeightNone(s[1..], k);
    }
  }

  /** `x` goes before the first entry of `t` no taller than itself. */
  function InsertByHeight(x: Size, t: seq<Size>): (r: seq<Size>)
    ensures |r| == |t| + 1
    ensures multiset(r) == multiset(t) + multiset{x}
  {
    if |t| == 0 || t[0].h <= x.h then [x] + t
    else
      assert t == [t[0]] + t[1..];
      [t[0]] + InsertByHeight(x, t[1..])
  }

  lemma {:induction false} InsertSorted(x: Size, t: seq<Size>)
    requires HeightsNonIncreasing(t)
    ensures HeightsNonIncreasing(InsertByHeight(x, t))
    decreases |t|
  {
    if |t| == 0 || t[0].h <= x.h {
      forall j | 0 <= j < |t|
        ensures t[j].h <= x.h
      {
      }
      ConsSorted(x, t);
    } else {
      SortedTail(t);
      InsertSorted(x, t[1..]);
      InsertBelow(x, t);
      ConsSorted(t[0], InsertByHeight(x, t[1..]));
    }
  }

  /** An entry at least as tall as every entry of an ordered sequence can go
      in front of it. */
  lemma {:induction false} ConsSorted(x: Size, t: seq<Size>)
    requires HeightsNonIncreasing(t)
    requires forall j :: 0 <= j < |t| ==> t[j].h <= x.h
    ensures HeightsNonIncreasing([x] + t)
  {
    var r := [x] + t;
    forall i, j | 0 <= i < j < |r|
      ensures r[i].h >= r[j].h
    {
      assert r[j] == t[j - 1];
      if i > 0 {
        assert r[i] == t[i - 1];
      }
    }
  }

  /** Inserting a lower entry into the tail of an ordered sequence leaves
      everything no taller than its head. */
  lemma {:induction false} InsertBelow(x: Size, t: seq<Size>)
    requires |t| > 0 && x.h < t[0].h && HeightsNonIncreasing(t)
    ensures forall j :: 0 <= j < |t| ==> InsertByHeight(x, t[1..])[j].h <= t[0].h
  {
    var tail := t[1..];
    var r := InsertByHeight(x, tail);
    forall j | 0 <= j < |r|
      ensures r[j].h <= t[0].h
    {
      assert r[j] in multiset(r);
      if r[j] != x {
        assert r[j] in multiset(tail);
        var m :| 0 <= m < |tail| && tail[m] == r[j];
        assert tail[m] == t[m + 1];
      }
    }
  }

  /** Stability of one insertion: `x` lands before every entry of its own
      height, and the other heights keep their order. */
  lemma {:induction false} InsertKeepsHeights(x: Size, t: seq<Size>, k: int)
    ensures WithHeight(InsertByHeight(x, t), k) == (if x.h == k then [x] else []) + WithHeight(t, k)
    decreases |t|
  {
    if |t| == 0 || t[0].h <= x.h {
      InsertFront(x, t);
      WithHeightCons(x, t, k);
    } else {
      var tail := t[1..];
      var r' := InsertByHeight(x, tail);
      InsertPast(x, t);
      InsertKeepsHeights(x, tail, k);
      WithHeightCons(t[0], r', k);
      assert t == [t[0]] + tail;
      WithHeightCons(t[0], tail, k);
      if x.h == k {
        assert t[0].h != k;
      } else if t[0].h == k {
        assert [t[0]] + WithHeight(r', k) == [t[0]] + WithHeight(tail, k);
      }
    }
  }

  lemma {:induction false} InsertFront(x: Size, t: seq<Size>)
    requires |t| == 0 || t[0].h <= x.h
    ensures InsertByHeight(x, t) == [x] + t
  {
  }

  lemma {:induction false} InsertPast(x: Size, t: seq<Size>)
    requires |t| > 0 && t[0].h > x.h
    ensures InsertByHeight(x, t) == [t[0]] + InsertByHeight(x, t[1..])
  {
  }

  /** The sort of line 158: by height, tallest first, by repeated insertion,
      so that entries of equal height keep their order. */
  function SortByHeightDesc(s: seq<Size>): (r: seq<Size>)
    ensures multiset(r) == multiset(s)
    ensures HeightsNonIncreasing(r)
    ensures forall k :: WithHeight(r, k) == WithHeight(s, k)
    decreases |s|
  {
    if |s| == 0 then []
    else
      var t := SortByHeightDesc(s[1..]);
      InsertSorted(s[0], t);
      assert s == [s[0]] + s[1..];
      assert forall k :: WithHeight(InsertByHeight(s[0], t), k) == WithHeight(s, k) by {
        forall k
          ensures WithHeight(InsertByHeight(s[0], t), k) == WithHeight(s, k)
        {
          InsertKeepsHeights(s[0], t, k);
          WithHeightCons(s[0], s[1..], k);
        }
      }
      InsertByHeight(s[0], t)
  }

  lemma {:induction false} SortedTail(s: seq<Size>)
    requires |s| > 0 && HeightsNonIncreasing(s)
    ensures HeightsNonIncreasing(s[1..])
  {
    forall i, j | 0 <= i < j < |s| - 1
      ensures s[1..][i].h >= s[1..][j].h
    {
      assert s[1..][i] == s[i + 1] && s[1..][j] == s[j + 1];
    }
  }

  /** Height-ordered sequences with the same entries of each height start
      with the same entry. */
  lemma {:induction false} SameFirst(a: seq<Size>, b: seq<Size>)
    requires |a| > 0 && |b| > 0
    requires HeightsNonIncreasing(a) && HeightsNonIncreasing(b)
    requires forall k :: WithHeight(a, k) == WithHeight(b, k)
    ensures a[0] == b[0]
  {
    var m := a[0].h;
    if b[0].h < m {
      WithHeightHas(a, 0);
      WithHeightNone(b, m);
      assert false;
    } else if b[0].h > m {
      WithHeightHas(b, 0);
      WithHeightNone(a, b[0].h);
      assert false;
    }
    assert WithHeight(a, m) == [a[0]] + WithHeight(a[1..], m);
    assert WithHeight(b, m) == [b[0]] + WithHeight(b[1..], m);
    assert WithHeight(a, m)[0] == WithHeight(b, m)[0];
  }

  lemma {:induction false} SameTailHeights(a: seq<Size>, b: seq<Size>)
    requires |a| > 0 && |b| > 0 && a[0] == b[0]
    requires forall k :: WithHeight(a, k) == WithHeight(b, k)
    ensures forall k :: WithHeight(a[1..], k) == WithHeight(b[1..], k)
  {
    forall k
      ensures WithHeight(a[1..], k) == WithHeight(b[1..], k)
    {
      var p := if a[0].h == k then [a[0]] else [];
      assert WithHeight(a, k) == p + WithHeight(a[1..], k);
      assert WithHeight(b, k) == p + WithHeight(b[1..], k);
      assert WithHeight(a[1..], k) == WithHeight(a, k)[|p|..];
      assert WithHeight(b[1..], k) == WithHeight(b, k)[|p|..];
    }
  }

  /** A height-ordered sequence is fixed by its entries of each height: two
      such sequences with the same height-`k` entries for every `k` are
      equal. */
  lemma {:induction false} OrderedUnique(a: seq<Size>, b: seq<Size>)
    requires HeightsNonIncreasing(a) && HeightsNonIncreasing(b)
    requires forall k :: WithHeight(a, k) == WithHeight(b, k)
    ensures a == b
    decreases |a| + |b|
  {
    SameEmptiness(a, b);
    if |a| > 0 {
      SameFirst(a, b);
      SameTailHeights(a, b);
      SortedTail(a);
      SortedTail(b);
      OrderedUnique(a[1..], b[1..]);
      assert a == [a[0]] + a[1..] && b == [b[0]] + b[1..];
    }
  }

  /** Sequences with the same entries of each height are both empty or both
      not. */
  lemma {:induction false} SameEmptiness(a: seq<Size>, b: seq<Size>)
    requires forall k :: WithHeight(a, k) == WithHeight(b, k)
    ensures |a| == 0 <==> |b| == 0
  {
    if |a| > 0 {
      WithHeightHas(a, 0);
      assert |WithHeight(b, a[0].h)| > 0;
    }
    if |b| > 0 {
      WithHeightHas(b, 0);
      assert |WithHeight(a, b[0].h)| > 0;
    }
  }

  /** The sort is the stable one: any height-ordered arrangement that keeps
      every height's entries in their input order is the sorted result. */
  lemma {:induction false} StableSortUnique(s: seq<Size>, r: seq<Size>)
    requires HeightsNonIncreasing(r)
    requires forall k :: WithHeight(r, k) == WithHeight(s, k)
    ensures r == SortByHeightDesc(s)
  {
    OrderedUnique(r, SortByHeightDesc(s));
  }

  lemma {:induction false} SizeIdsCons(x: Size, t: seq<Size>)
    ensures SizeIds([x] + t) == [x.idx] + SizeIds(t)
  {
    var a, b := SizeIds([x] + t), [x.idx] + SizeIds(t);
    forall k | 0 <= k < |a|
      ensures a[k] == b[k]
    {
      if k > 0 {
        assert ([x] + t)[k] == t[k - 1];
      }
    }
  }

  lemma {:induction false} InsertKeepsIds(x: Size, t: seq<Size>)
    ensures multiset(SizeIds(InsertByHeight(x, t))) == multiset(SizeIds(t)) + multiset{x.idx}
    decreases |t|
  {
    if |t| == 0 || t[0].h <= x.h {
      SizeIdsCons(x, t);
    } else {
      InsertKeepsIds(x, t[1..]);
      SizeIdsCons(t[0], InsertByHeight(x, t[1..]));
      SizeIdsCons(t[0], t[1..]);
      assert t == [t[0]] + t[1..];
    }
  }

  /** Sorting permutes the original indices: each appears as often as before. */
  lemma {:induction false} SortKeepsIds(s: seq<Size>)
    ensures multiset(SizeIds(SortByHeightDesc(s))) == multiset(SizeIds(s))
    decreases |s|
  {
    if |s| > 0 {
      SortKeepsIds(s[1..]);
      InsertKeepsIds(s[0], SortByHeightDesc(s[1..]));
      SizeIdsCons(s[0], s[1..]);
      assert s == [s[0]] + s[1..];
    }
  }
}

/**
 Stable sorting by an integer key, as the standard library's `sort_by` does it, and
 what it means to look only at the front of the sorted sequence.
 */
module StableSort {

  datatype Entry<A> = Entry(account: A, pnl: int)

  predicate Sorted<A>(s: seq<Entry<A>>) {
    forall i, j :: 0 <= i < j < |s| ==> s[i].pnl <= s[j].pnl
  }

  /** Puts `x` behind every entry that is not larger. */
  function Insert<A>(s: seq<Entry<A>>, x: Entry<A>): (r: seq<Entry<A>>) {
    if s == [] || s[|s| - 1].pnl <= x.pnl then s + [x]
    else Insert(s[..|s| - 1], x) + [s[|s| - 1]]
  }

  /** Entries enter in order, so equal keys keep their order. */
  function Sort<A>(s: seq<Entry<A>>): seq<Entry<A>> {
    if s == [] then [] else Insert(Sort(s[..|s| - 1]), s[|s| - 1])
  }

  /** The entries with one particular key, in order. */
  function WithKey<A>(s: seq<Entry<A>>, k: int): seq<Entry<A>> {
    if s == [] then []
    else WithKey(s[..|s| - 1], k) + if s[|s| - 1].pnl == k then [s[|s| - 1]] else []
  }

  lemma {:induction false} InsertBelow<A>(s: seq<Entry<A>>, x: Entry<A>, k: int)
    requires x.pnl <= k && forall i :: 0 <= i < |s| ==> s[i].pnl <= k
    ensures |Insert(s, x)| == |s| + 1
    ensures forall i :: 0 <= i < |Insert(s, x)| ==> Insert(s, x)[i].pnl <= k
  {
    if s != [] && s[|s| - 1].pnl > x.pnl {
      InsertBelow(s[..|s| - 1], x, k);
    }
  }

  lemma {:induction false} InsertSorted<A>(s: seq<Entry<A>>, x: Entry<A>)
    requires Sorted(s)
    ensures Sorted(Insert(s, x))
  {
    if s != [] && s[|s| - 1].pnl > x.pnl {
      InsertSorted(s[..|s| - 1], x);
      InsertBelow(s[..|s| - 1], x, s[|s| - 1].pnl);
    }
  }

  lemma {:induction false} InsertPermutes<A>(s: seq<Entry<A>>, x: Entry<A>)
    ensures multiset(Insert(s, x)) == multiset(s) + multiset{x}
  {
    if s != [] && s[|s| - 1].pnl > x.pnl {
      InsertPermutes(s[..|s| - 1], x);
      assert s == s[..|s| - 1] + [s[|s| - 1]];
    }
  }

  lemma {:induction false} InsertKeepsOrder<A>(s: seq<Entry<A>>, x: Entry<A>, k: int)
    requires Sorted(s)
    ensures WithKey(Insert(s, x), k) == WithKey(s, k) + if x.pnl == k then [x] else []
  {
    if s == [] || s[|s| - 1].pnl <= x.pnl {
      assert (s + [x])[..|s|] == s;
    } else {
      var n := |s| - 1;
      InsertKeepsOrder(s[..n], x, k);
      assert (Insert(s[..n], x) + [s[n]])[..|Insert(s[..n], x)|] == Insert(s[..n], x);
      if x.pnl == k {
        assert s[n].pnl != k;
      }
    }
  }

  /** Sorted, a permutation, and equal keys in their old order. */
  lemma {:induction false} SortSpec<A>(s: seq<Entry<A>>)
    ensures Sorted(Sort(s)) && multiset(Sort(s)) == multiset(s) && |Sort(s)| == |s|
    ensures forall k :: WithKey(Sort(s), k) == WithKey(s, k)
  {
    if s != [] {
      var n := |s| - 1;
      SortSpec(s[..n]);
      InsertSorted(Sort(s[..n]), s[n]);
      InsertPermutes(Sort(s[..n]), s[n]);
      assert s == s[..n] + [s[n]];
      assert |multiset(Sort(s))| == |multiset(s)|;
      forall k ensures WithKey(Sort(s), k) == WithKey(s, k) {
        InsertKeepsOrder(Sort(s[..n]), s[n], k);
      }
    }
  }

  lemma {:induction false} SortBelow<A>(s: seq<Entry<A>>, k: int)
    requires forall i :: 0 <= i < |s| ==> s[i].pnl <= k
    ensures forall i :: 0 <= i < |Sort(s)| ==> Sort(s)[i].pnl <= k
  {
    if s != [] {
      SortBelow(s[..|s| - 1], k);
      InsertBelow(Sort(s[..|s| - 1]), s[|s| - 1], k);
    }
  }

  lemma SortMember<A>(s: seq<Entry<A>>, e: Entry<A>)
    ensures e in Sort(s) <==> e in s
  {
    SortSpec(s);
    assert e in multiset(Sort(s)) <==> e in multiset(s);
  }

  /** Number of entries with a key of at most `k`. */
  function CountUpTo<A>(s: seq<Entry<A>>, k: int): nat {
    if s == [] then 0 else CountUpTo(s[..|s| - 1], k) + if s[|s| - 1].pnl <= k then 1 else 0
  }

  lemma {:induction false} InsertCount<A>(s: seq<Entry<A>>, x: Entry<A>, k: int)
    ensures CountUpTo(Insert(s, x), k) == CountUpTo(s, k) + if x.pnl <= k then 1 else 0
  {
    if s == [] || s[|s| - 1].pnl <= x.pnl {
      assert (s + [x])[..|s|] == s;
    } else {
      var n := |s| - 1;
      InsertCount(s[..n], x, k);
      assert (Insert(s[..n], x) + [s[n]])[..|Insert(s[..n], x)|] == Insert(s[..n], x);
    }
  }

  lemma {:induction false} SortCount<A>(s: seq<Entry<A>>, k: int)
    ensures CountUpTo(Sort(s), k) == CountUpTo(s, k)
  {
    if s != [] {
      SortCount(s[..|s| - 1], k);
      InsertCount(Sort(s[..|s| - 1]), s[|s| - 1], k);
    }
  }

  /** In a sorted sequence the small keys come first. */
  lemma {:induction false} SmallFirst<A>(s: seq<Entry<A>>, k: int)
    requires Sorted(s)
    ensures CountUpTo(s, k) <= |s|
    ensures forall i :: 0 <= i < CountUpTo(s, k) ==> s[i].pnl <= k
  {
    if s != [] {
      SmallFirst(s[..|s| - 1], k);
      if s[|s| - 1].pnl <= k {
        assert forall i :: 0 <= i < |s| ==> s[i].pnl <= k;
      }
    }
  }

  lemma {:induction false} CountAtLeast<A>(s: seq<Entry<A>>, k: int, c: nat)
    requires c <= |s| && forall i :: 0 <= i < c ==> s[i].pnl <= k
    ensures c <= CountUpTo(s, k)
  {
    if c > 0 {
      var n := |s| - 1;
      CountAtLeast(s[..n], k, if c > n then n else c);
    }
  }

  lemma {:induction false} CountMonotone<A>(s: seq<Entry<A>>, k: int, k': int)
    requires k <= k'
    ensures CountUpTo(s, k) <= CountUpTo(s, k')
  {
    if s != [] {
      CountMonotone(s[..|s| - 1], k, k');
    }
  }

  /** Sorted sequences with equal counts have equal keys. */
  lemma SameKeys<A>(s: seq<Entry<A>>, t: seq<Entry<A>>)
    requires Sorted(s) && Sorted(t) && |s| == |t|
    requires forall k :: CountUpTo(s, k) == CountUpTo(t, k)
    ensures forall i :: 0 <= i < |s| ==> s[i].pnl == t[i].pnl
  {
    forall i | 0 <= i < |s| ensures s[i].pnl == t[i].pnl {
      CountAtLeast(s, s[i].pnl, i + 1);
      SmallFirst(t, s[i].pnl);
      CountAtLeast(t, t[i].pnl, i + 1);
      SmallFirst(s, t[i].pnl);
    }
  }

  /** An entry not smaller than the first `c` ones goes behind them. */
  lemma {:induction false} InsertBehind<A>(s: seq<Entry<A>>, x: Entry<A>, c: nat)
    requires c <= |s| && forall i :: 0 <= i < c ==> s[i].pnl <= x.pnl
    ensures c <= |Insert(s, x)| && Insert(s, x)[..c] == s[..c]
  {
    if s != [] && s[|s| - 1].pnl > x.pnl {
      InsertBehind(s[..|s| - 1], x, c);
      assert s[..|s| - 1][..c] == s[..c];
    }
  }

  /**
   If at least `c` entries of `front` have keys of at most `k` and every entry of `back`
   has a key of at least `k`, then the first `c` of the sorted whole are those of the
   sorted front, whatever `back` holds.
   */
  lemma {:induction false} FrontDecides<A>(front: seq<Entry<A>>, back: seq<Entry<A>>, k: int, c: nat)
    requires c <= CountUpTo(front, k)
    requires forall i :: 0 <= i < |back| ==> k <= back[i].pnl
    ensures c <= |Sort(front)| && c <= |Sort(front + back)|
    ensures Sort(front + back)[..c] == Sort(front)[..c]
    ensures forall i :: 0 <= i < c ==> Sort(front + back)[i].pnl <= k
  {
    if back == [] {
      assert front + back == front;
      SortSpec(front);
      SortCount(front, k);
      SmallFirst(Sort(front), k);
    } else {
      var n := |back| - 1;
      FrontDecides(front, back[..n], k, c);
      assert (front + back)[..|front + back| - 1] == front + back[..n];
      var t := Sort(front + back[..n]);
      InsertBehind(t, back[n], c);
      assert Sort(front + back) == Insert(t, back[n]);
      assert forall i :: 0 <= i < c ==> Sort(front + back)[i] == Sort(front + back)[..c][i] == t[..c][i] == t[i];
    }
  }

  /** Sorting the largest to the front, for the positive direction. */
  function Negated<A>(s: seq<Entry<A>>): (r: seq<Entry<A>>)
    ensures |r| == |s| && forall i :: 0 <= i < |s| ==> r[i] == s[i].(pnl := -s[i].pnl)
  {
    seq(|s|, i requires 0 <= i < |s| => s[i].(pnl := -s[i].pnl))
  }
}

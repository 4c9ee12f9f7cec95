/**
 Selecting the accounts with the largest settleable perp pnl. For negative pnl every
 amount must still be capped by what the account can settle; the cap is expensive, so it
 is only evaluated until the order of the top accounts can no longer change.
 */
module TopPnl {

  import opened Common
  import opened StableSort

  datatype Direction = MaxPositive | MaxNegative

  /** Loss that can be settled: never larger than `maxSettle`, nothing if that is not positive. */
  function Settleable(pnl: int, maxSettle: int): int {
    if maxSettle > 0 then (if pnl > -maxSettle then pnl else -maxSettle) else 0
  }

  function Cap<A>(e: Entry<A>, maxSettle: A -> int): Entry<A> {
    e.(pnl := Settleable(e.pnl, maxSettle(e.account)))
  }

  function CapAll<A>(s: seq<Entry<A>>, maxSettle: A -> int): (r: seq<Entry<A>>)
    ensures |r| == |s| && forall i :: 0 <= i < |s| ==> r[i] == Cap(s[i], maxSettle)
  {
    seq(|s|, i requires 0 <= i < |s| => Cap(s[i], maxSettle))
  }

  /** Accounts whose limited pnl has the wanted sign. */
  function Relevant<A>(s: seq<Entry<A>>, direction: Direction): seq<Entry<A>> {
    if s == [] then []
    else
      var e := s[|s| - 1];
      Relevant(s[..|s| - 1], direction)
        + if (direction.MaxNegative? && e.pnl >= 0) || (direction.MaxPositive? && e.pnl <= 0) then [] else [e]
  }

  function Take<A>(s: seq<A>, n: nat): seq<A> {
    if n <= |s| then s[..n] else s
  }

  lemma {:induction false} RelevantSign<A>(s: seq<Entry<A>>, direction: Direction)
    ensures forall i :: 0 <= i < |Relevant(s, direction)| ==>
              var e := Relevant(s, direction)[i];
              e in s && if direction.MaxNegative? then e.pnl < 0 else e.pnl > 0
  {
    if s != [] {
      RelevantSign(s[..|s| - 1], direction);
    }
  }

  /** The standard library's stable sort, whose result replaces the array's contents. */
  method SortInPlace<A>(a: array<Entry<A>>)
    modifies a
    ensures a[..] == Sort(old(a[..]))
  {
    ghost var before := a[..];
    SortSpec(before);
    var sorted := Sort(a[..]);
    for i := 0 to a.Length
      invariant a[..i] == sorted[..i]
    {
      a[i] := sorted[i];
    }
    assert a[..] == a[..a.Length] == sorted[..a.Length] == sorted;
  }

  /** The pnl of the first entry behind a prefix of length `n`, or zero at the end. */
  function NextPnl<A>(s: seq<Entry<A>>, n: nat): int {
    if n < |s| then s[n].pnl else 0
  }

  ghost predicate Losses<A>(s: seq<Entry<A>>) {
    Sorted(s) && forall i :: 0 <= i < |s| ==> s[i].pnl < 0
  }

  /** Capping only raises pnl, so nothing behind the prefix falls below the next entry. */
  lemma BehindPrefix<A>(p: seq<Entry<A>>, n: nat, maxSettle: A -> int)
    requires Losses(p) && n <= |p|
    ensures forall i :: 0 <= i < |p[n..]| ==> NextPnl(p, n) <= p[n..][i].pnl
    ensures forall i :: 0 <= i < |p[n..]| ==> NextPnl(p, n) <= CapAll(p[n..], maxSettle)[i].pnl
  {
  }

  /** Capping a prefix is enough once `c` capped entries are not above the next one. */
  lemma PrefixSuffices<A>(p: seq<Entry<A>>, n: nat, maxSettle: A -> int, c: nat)
    requires Losses(p) && n <= |p|
    requires c <= CountUpTo(CapAll(p[..n], maxSettle), NextPnl(p, n))
    ensures var lazy := CapAll(p[..n], maxSettle) + p[n..];
            Take(Sort(lazy), c) == Take(Sort(CapAll(p, maxSettle)), c)
  {
    BehindPrefix(p, n, maxSettle);
    assert CapAll(p, maxSettle) == CapAll(p[..n], maxSettle) + CapAll(p[n..], maxSettle);
    SameFront(CapAll(p[..n], maxSettle), p[n..], CapAll(p[n..], maxSettle), NextPnl(p, n), c);
  }

  lemma SameFront<A>(front: seq<Entry<A>>, back: seq<Entry<A>>, back': seq<Entry<A>>, k: int, c: nat)
    requires c <= CountUpTo(front, k)
    requires forall i :: 0 <= i < |back| ==> k <= back[i].pnl
    requires forall i :: 0 <= i < |back'| ==> k <= back'[i].pnl
    ensures Take(Sort(front + back), c) == Take(Sort(front + back'), c)
  {
    FrontDecides(front, back, k, c);
    FrontDecides(front, back', k, c);
  }

  /** One more capped entry: the count of settled positions keeps up with `stable`. */
  lemma StableGrows<A>(p: seq<Entry<A>>, i: nat, maxSettle: A -> int)
    requires Losses(p) && i < |p|
    ensures CountUpTo(CapAll(p[..i + 1], maxSettle), NextPnl(p, i + 1))
         >= CountUpTo(CapAll(p[..i], maxSettle), NextPnl(p, i))
            + if Cap(p[i], maxSettle).pnl <= NextPnl(p, i + 1) then 1 else 0
  {
    var front, all := CapAll(p[..i], maxSettle), CapAll(p[..i + 1], maxSettle);
    assert all[..i] == front;
    CountMonotone(front, NextPnl(p, i), NextPnl(p, i + 1));
  }

  /**
   The early stop. `stable` counts the entries whose capped value is not above the next
   uncapped one; at `count` of them the rest is left uncapped. Returns nothing when a
   needed account could not be evaluated.
   */
  method CapLazily<A>(a: array<Entry<A>>, fetches: A -> bool, maxSettle: A -> int, count: nat) returns (ok: bool)
    requires Losses(a[..])
    modifies a
    ensures ok ==> Take(Sort(a[..]), count) == Take(Sort(CapAll(old(a[..]), maxSettle)), count)
    ensures !ok ==> exists i :: 0 <= i < a.Length && !fetches(old(a[i]).account)
  {
    ghost var p := a[..];
    var stable, i := 0, 0;
    while i < a.Length
      invariant 0 <= i <= a.Length
      invariant forall j :: 0 <= j < a.Length ==> a[j] == if j < i then Cap(p[j], maxSettle) else p[j]
      invariant stable <= CountUpTo(CapAll(p[..i], maxSettle), NextPnl(p, i))
    {
      var nextPnl := if i + 1 < a.Length then a[i + 1].pnl else 0;
      if !fetches(a[i].account) {
        return false;
      }
      var settleablePnl := Settleable(a[i].pnl, maxSettle(a[i].account));
      a[i] := a[i].(pnl := settleablePnl);
      StableGrows(p, i, maxSettle);
      if settleablePnl <= nextPnl {
        stable := stable + 1;
        if stable >= count {
          MixedForm(a[..], p, i + 1, maxSettle);
          PrefixSuffices(p, i + 1, maxSettle, count);
          return true;
        }
      }
      i := i + 1;
    }
    assert a[..] == CapAll(p, maxSettle);
    ok := true;
  }

  lemma MixedForm<A>(a: seq<Entry<A>>, p: seq<Entry<A>>, n: nat, maxSettle: A -> int)
    requires |a| == |p| && n <= |p|
    requires forall j :: 0 <= j < |a| ==> a[j] == if j < n then Cap(p[j], maxSettle) else p[j]
    ensures a == CapAll(p[..n], maxSettle) + p[n..]
  {
  }

  // ---------- what the selection means ----------

  /** A loss can be settled up to its size, and up to `maxSettle` if that is positive. */
  ghost predicate CanSettle(pnl: int, maxSettle: int, amount: int) {
    pnl <= amount <= 0 && (amount < 0 ==> -amount <= maxSettle)
  }

  /** The settleable pnl is the largest part of the loss that can be settled. */
  lemma SettleableIsLargest(pnl: int, maxSettle: int)
    requires pnl < 0
    ensures CanSettle(pnl, maxSettle, Settleable(pnl, maxSettle))
    ensures forall amount :: CanSettle(pnl, maxSettle, amount) ==> Settleable(pnl, maxSettle) <= amount
  {
  }

  predicate Wanted(pnl: int, direction: Direction) {
    match direction
    case MaxPositive => pnl > 0
    case MaxNegative => pnl < 0
  }

  ghost predicate Increasing(idx: seq<nat>) {
    forall i, j :: 0 <= i < j < |idx| ==> idx[i] < idx[j]
  }

  /** The positions `idx` of `s`, and no others, have a pnl of the wanted sign. */
  ghost predicate Selects<A>(s: seq<Entry<A>>, direction: Direction, idx: seq<nat>) {
    && Increasing(idx)
    && (forall i :: 0 <= i < |idx| ==> idx[i] < |s| && Wanted(s[idx[i]].pnl, direction))
    && (forall j :: 0 <= j < |s| && Wanted(s[j].pnl, direction) ==> j in idx)
  }

  lemma {:induction false} SelectsNext<A>(s: seq<Entry<A>>, direction: Direction, before: seq<nat>, idx: seq<nat>)
    requires s != [] && Selects(s[..|s| - 1], direction, before)
    requires idx == if Wanted(s[|s| - 1].pnl, direction) then before + [|s| - 1] else before
    ensures Selects(s, direction, idx)
  {
    var n := |s| - 1;
    forall j | 0 <= j < |s| && Wanted(s[j].pnl, direction) ensures j in idx {
      if j < n {
        assert s[..n][j] == s[j];
        assert j in before;
        assert forall k :: 0 <= k < |before| ==> idx[k] == before[k];
      } else {
        assert idx[|before|] == n;
      }
    }
  }

  /** `r` has the entries of `s` at the positions `idx`. */
  ghost predicate Picks<A>(s: seq<Entry<A>>, idx: seq<nat>, r: seq<Entry<A>>) {
    |r| == |idx| && forall i :: 0 <= i < |idx| ==> idx[i] < |s| && r[i] == s[idx[i]]
  }

  lemma {:induction false} PicksNext<A>(s: seq<Entry<A>>, n: nat, idx: seq<nat>, r: seq<Entry<A>>)
    requires n < |s| && Picks(s[..n], idx, r)
    ensures Picks(s, idx, r) && Picks(s, idx + [n], r + [s[n]])
  {
  }

  /** Considered are exactly the accounts with the wanted sign, each once and in their order. */
  lemma {:induction false} RelevantExact<A>(s: seq<Entry<A>>, direction: Direction) returns (idx: seq<nat>)
    ensures Selects(s, direction, idx) && Picks(s, idx, Relevant(s, direction))
  {
    if s == [] {
      idx := [];
    } else {
      var n := |s| - 1;
      var before := RelevantExact(s[..n], direction);
      PicksNext(s, n, before, Relevant(s[..n], direction));
      idx := if Wanted(s[n].pnl, direction) then before + [n] else before;
      SelectsNext(s, direction, before, idx);
      RelevantNext(s, direction);
    }
  }

  lemma RelevantNext<A>(s: seq<Entry<A>>, direction: Direction)
    requires s != []
    ensures var n := |s| - 1;
            Relevant(s, direction)
            == if Wanted(s[n].pnl, direction) then Relevant(s[..n], direction) + [s[n]] else Relevant(s[..n], direction)
  {
  }

  // ---------- the selection ----------

  /** `r` is sorted and has the `count` smallest entries of `all`, or all of them if there are fewer. */
  ghost predicate SmallestOf<A>(r: seq<Entry<A>>, all: seq<Entry<A>>, count: nat) {
    && Sorted(r)
    && |r| == Min(count, |all|)
    && multiset(r) <= multiset(all)
    && forall x, y :: x in r && y in multiset(all) - multiset(r) ==> x.pnl <= y.pnl
  }

  lemma {:induction false} FrontBeforeBack<A>(s: seq<Entry<A>>, n: nat, x: Entry<A>, y: Entry<A>)
    requires Sorted(s) && n <= |s| && x in s[..n] && y in s[n..]
    ensures x.pnl <= y.pnl
  {
    var i :| 0 <= i < n && s[i] == x;
    var j :| n <= j < |s| && s[j] == y;
  }

  lemma {:induction false} MultisetRest<T>(s: seq<T>, n: nat)
    requires n <= |s|
    ensures multiset(s[..n]) <= multiset(s) && multiset(s) - multiset(s[..n]) == multiset(s[n..])
  {
    assert s == s[..n] + s[n..];
  }

  lemma {:induction false} SortedFront<A>(s: seq<Entry<A>>, n: nat)
    requires Sorted(s) && n <= |s|
    ensures SmallestOf(s[..n], s, n)
  {
    MultisetRest(s, n);
    forall x, y | x in s[..n] && y in multiset(s) - multiset(s[..n]) ensures x.pnl <= y.pnl {
      FrontBeforeBack(s, n, x, y);
    }
  }

  lemma {:induction false} FrontIsSmallest<A>(all: seq<Entry<A>>, count: nat)
    ensures SmallestOf(Take(Sort(all), count), all, count)
  {
    SortSpec(all);
    var n := Min(count, |all|);
    SortedFront(Sort(all), n);
    assert Take(Sort(all), count) == Sort(all)[..n];
    SmallestOfSame(Sort(all)[..n], Sort(all), all, n);
  }

  lemma {:induction false} SmallestOfSame<A>(r: seq<Entry<A>>, all: seq<Entry<A>>, all': seq<Entry<A>>, count: nat)
    requires SmallestOf(r, all, count) && multiset(all) == multiset(all') && |all| == |all'|
    ensures SmallestOf(r, all', count)
  {
  }

  lemma CapAllLast<A>(s: seq<Entry<A>>, x: Entry<A>, maxSettle: A -> int)
    ensures CapAll(s + [x], maxSettle) == CapAll(s, maxSettle) + [Cap(x, maxSettle)]
  {
  }

  lemma {:induction false} CapInsertPermutes<A>(s: seq<Entry<A>>, x: Entry<A>, maxSettle: A -> int)
    ensures multiset(CapAll(Insert(s, x), maxSettle)) == multiset(CapAll(s, maxSettle)) + multiset{Cap(x, maxSettle)}
  {
    var n := |s| - 1;
    if s == [] || s[n].pnl <= x.pnl {
      CapAllLast(s, x, maxSettle);
    } else {
      CapInsertPermutes(s[..n], x, maxSettle);
      CapAllLast(Insert(s[..n], x), s[n], maxSettle);
      CapAllLast(s[..n], s[n], maxSettle);
      assert s == s[..n] + [s[n]];
    }
  }

  lemma {:induction false} CapSortPermutes<A>(s: seq<Entry<A>>, maxSettle: A -> int)
    ensures multiset(CapAll(Sort(s), maxSettle)) == multiset(CapAll(s, maxSettle))
  {
    if s != [] {
      var n := |s| - 1;
      CapSortPermutes(s[..n], maxSettle);
      CapInsertPermutes(Sort(s[..n]), s[n], maxSettle);
      CapAllLast(s[..n], s[n], maxSettle);
      assert s == s[..n] + [s[n]];
    }
  }

  /**
   The losses returned are the largest ones: with every considered account counted at what
   it can settle, no account left out has a larger settleable loss than one returned.
   */
  lemma {:induction false} TopLossesAreLargest<A>(accounts: seq<Entry<A>>, maxSettle: A -> int, count: nat)
    ensures var losses := Relevant(accounts, MaxNegative);
            SmallestOf(Take(Sort(CapAll(Sort(losses), maxSettle)), count), CapAll(losses, maxSettle), count)
  {
    var losses := Relevant(accounts, MaxNegative);
    SortSpec(losses);
    CapSortPermutes(losses, maxSettle);
    FrontIsSmallest(CapAll(Sort(losses), maxSettle), count);
    SmallestOfSame(Take(Sort(CapAll(Sort(losses), maxSettle)), count),
                   CapAll(Sort(losses), maxSettle), CapAll(losses, maxSettle), count);
  }

  /** The profits returned are the largest ones, largest first. */
  lemma {:induction false} TopProfitsAreLargest<A>(accounts: seq<Entry<A>>, count: nat)
    ensures var profits := Relevant(accounts, MaxPositive);
            SmallestOf(Negated(Take(Negated(Sort(Negated(profits))), count)), Negated(profits), count)
  {
    var down := Negated(Relevant(accounts, MaxPositive));
    FrontIsSmallest(down, count);
    NegatedFront(Sort(down), count);
  }

  lemma {:induction false} NegatedFront<A>(s: seq<Entry<A>>, count: nat)
    ensures Negated(Take(Negated(s), count)) == Take(s, count)
  {
  }

  /**
   Up to `count` accounts with the highest absolute pnl in the direction, best first.
   For losses the lazily capped selection is the one that caps every account: the same
   entries, with their capped values, that capping everything and sorting would give. No
   account left out would settle more than one returned.
   */
  method FetchTop<A>(accounts: seq<Entry<A>>, direction: Direction, fetches: A -> bool, maxSettle: A -> int, count: nat)
    returns (r: Option<seq<Entry<A>>>)
    ensures direction.MaxNegative? && r.Some? ==>
              r.value == Take(Sort(CapAll(Sort(Relevant(accounts, direction)), maxSettle)), count)
    ensures direction.MaxNegative? && r.Some? ==>
              SmallestOf(r.value, CapAll(Relevant(accounts, direction), maxSettle), count)
    ensures direction.MaxPositive? ==>
              r == Some(Take(Negated(Sort(Negated(Relevant(accounts, direction)))), count))
    ensures direction.MaxPositive? ==>
              SmallestOf(Negated(r.value), Negated(Relevant(accounts, direction)), count)
    ensures r.None? ==> exists e :: e in accounts && !fetches(e.account)
  {
    var relevant := Relevant(accounts, direction);
    RelevantSign(accounts, direction);
    if direction.MaxPositive? {
      TopProfitsAreLargest(accounts, count);
      return Some(Take(Negated(Sort(Negated(relevant))), count));
    }
    TopLossesAreLargest(accounts, maxSettle, count);
    r := TopLosses(relevant, fetches, maxSettle, count);
  }

  lemma {:induction false} SortedLosses<A>(losses: seq<Entry<A>>)
    requires forall i :: 0 <= i < |losses| ==> losses[i].pnl < 0
    ensures Losses(Sort(losses))
  {
    SortSpec(losses);
    SortBelow(losses, -1);
  }

  lemma {:induction false} FailedAmongSorted<A>(losses: seq<Entry<A>>, fetches: A -> bool)
    requires exists i :: 0 <= i < |Sort(losses)| && !fetches(Sort(losses)[i].account)
    ensures exists e :: e in losses && !fetches(e.account)
  {
    var i :| 0 <= i < |Sort(losses)| && !fetches(Sort(losses)[i].account);
    SortMember(losses, Sort(losses)[i]);
  }

  method TopLosses<A>(losses: seq<Entry<A>>, fetches: A -> bool, maxSettle: A -> int, count: nat)
    returns (r: Option<seq<Entry<A>>>)
    requires forall i :: 0 <= i < |losses| ==> losses[i].pnl < 0
    ensures r.Some? ==> r.value == Take(Sort(CapAll(Sort(losses), maxSettle)), count)
    ensures r.None? ==> exists e :: e in losses && !fetches(e.account)
  {
    var a := new Entry<A>[|losses|](i requires 0 <= i < |losses| => losses[i]);
    assert a[..] == losses;
    SortInPlace(a);
    ghost var sorted := a[..];
    SortedLosses(losses);
    var ok := CapLazily(a, fetches, maxSettle, count);
    if !ok {
      FailedAmongSorted(losses, fetches);
      return None;
    }
    SortInPlace(a);
    return Some(Take(a[..], count));
  }

  // ---------- in terms of the amounts alone ----------

  lemma {:induction false} CapInsertCount<A>(s: seq<Entry<A>>, x: Entry<A>, maxSettle: A -> int, k: int)
    ensures CountUpTo(CapAll(Insert(s, x), maxSettle), k)
         == CountUpTo(CapAll(s, maxSettle), k) + if Cap(x, maxSettle).pnl <= k then 1 else 0
  {
    var n := |s| - 1;
    if s == [] || s[n].pnl <= x.pnl {
      CapCountLast(s, x, maxSettle, k);
    } else {
      CapInsertCount(s[..n], x, maxSettle, k);
      CapCountLast(Insert(s[..n], x), s[n], maxSettle, k);
      CapCountLast(s[..n], s[n], maxSettle, k);
      assert s == s[..n] + [s[n]];
    }
  }

  lemma CapCountLast<A>(s: seq<Entry<A>>, x: Entry<A>, maxSettle: A -> int, k: int)
    ensures CountUpTo(CapAll(s + [x], maxSettle), k)
         == CountUpTo(CapAll(s, maxSettle), k) + if Cap(x, maxSettle).pnl <= k then 1 else 0
  {
    var t := CapAll(s + [x], maxSettle);
    assert t[..|t| - 1] == CapAll(s, maxSettle);
  }

  lemma {:induction false} CapSortCount<A>(s: seq<Entry<A>>, maxSettle: A -> int, k: int)
    ensures CountUpTo(CapAll(Sort(s), maxSettle), k) == CountUpTo(CapAll(s, maxSettle), k)
  {
    if s != [] {
      var n := |s| - 1;
      CapSortCount(s[..n], maxSettle, k);
      CapInsertCount(Sort(s[..n]), s[n], maxSettle, k);
      CapCountLast(s[..n], s[n], maxSettle, k);
      assert s == s[..n] + [s[n]];
    }
  }

  /**
   The amounts do not depend on the preliminary sort: position by position they are
   those of capping all relevant accounts in their original order and sorting once.
   */
  lemma AmountsAreOfFullCapping<A>(s: seq<Entry<A>>, maxSettle: A -> int)
    ensures var twice, once := Sort(CapAll(Sort(s), maxSettle)), Sort(CapAll(s, maxSettle));
            |twice| == |once| == |s| && forall i :: 0 <= i < |s| ==> twice[i].pnl == once[i].pnl
  {
    var u, t := CapAll(Sort(s), maxSettle), CapAll(s, maxSettle);
    SortSpec(s);
    SortSpec(u);
    SortSpec(t);
    forall k ensures CountUpTo(Sort(u), k) == CountUpTo(Sort(t), k) {
      SortCount(u, k);
      SortCount(t, k);
      CapSortCount(s, maxSettle, k);
    }
    SameKeys(Sort(u), Sort(t));
  }
}

/**
 Candidate pools: an insertion-ordered set of candidates together with the
 set of candidates that some worker is processing right now.

 The ordered set is a duplicate-free sequence: insertion appends, removal keeps
 the order of the rest.
 */
module Pools {

  /** Liquidation candidates or conditional swaps known to the liquidator. */
  datatype Pool<T(==)> = Pool(candidates: seq<T>, processing: set<T>)

  predicate Distinct<T(==)>(s: seq<T>) {
    forall i, j :: 0 <= i < j < |s| ==> s[i] != s[j]
  }

  function Elements<T>(s: seq<T>): set<T> {
    set x | x in s
  }

  /** The elements of `s` outside `gone`, in order. */
  function Without<T(==)>(s: seq<T>, gone: set<T>): seq<T> {
    if s == [] then []
    else if s[0] in gone then Without(s[1..], gone)
    else [s[0]] + Without(s[1..], gone)
  }

  /** The candidates no worker has claimed yet, oldest first. */
  function Unclaimed<T(==)>(p: Pool<T>): seq<T> {
    Without(p.candidates, p.processing)
  }

  /** Candidates are unique and every entry being processed is still a candidate. */
  ghost predicate ValidPool<T>(p: Pool<T>) {
    Distinct(p.candidates) && p.processing <= Elements(p.candidates)
  }

  /** Insertion into the ordered set: a known candidate changes nothing. */
  function Insert<T(==)>(p: Pool<T>, x: T): Pool<T> {
    if x in p.candidates then p else p.(candidates := p.candidates + [x])
  }

  function Claim<T(==)>(p: Pool<T>, xs: seq<T>): Pool<T> {
    p.(processing := p.processing + Elements(xs))
  }

  /** A finished batch leaves both the candidates and the processing set. */
  function Release<T(==)>(p: Pool<T>, xs: seq<T>): Pool<T> {
    Pool(Without(p.candidates, Elements(xs)), p.processing - Elements(xs))
  }

  lemma {:induction false} WithoutMembers<T>(s: seq<T>, gone: set<T>)
    ensures forall x :: x in Without(s, gone) <==> x in s && x !in gone
    ensures |Without(s, gone)| <= |s|
    ensures Distinct(s) ==> Distinct(Without(s, gone))
  {
    if s != [] {
      WithoutMembers(s[1..], gone);
      assert s == [s[0]] + s[1..];
      if Distinct(s) {
        assert forall i :: 0 <= i < |s[1..]| ==> s[1..][i] == s[i + 1];
      }
    }
  }

  lemma {:induction false} WithoutAppend<T>(s: seq<T>, t: seq<T>, gone: set<T>)
    ensures Without(s + t, gone) == Without(s, gone) + Without(t, gone)
  {
    if s == [] {
      assert s + t == t;
    } else {
      assert (s + t)[1..] == s[1..] + t;
      WithoutAppend(s[1..], t, gone);
    }
  }

  /** Only membership of the elements of `s` matters. */
  lemma {:induction false} WithoutAgree<T>(s: seq<T>, g: set<T>, h: set<T>)
    requires forall x :: x in s ==> (x in g <==> x in h)
    ensures Without(s, g) == Without(s, h)
  {
    if s != [] {
      assert s[0] in s;
      assert forall x :: x in s[1..] ==> x in s;
      WithoutAgree(s[1..], g, h);
    }
  }

  lemma {:induction false} WithoutTwice<T>(s: seq<T>, g: set<T>, h: set<T>)
    ensures Without(Without(s, g), h) == Without(s, g + h)
  {
    if s != [] {
      WithoutTwice(s[1..], g, h);
      if s[0] !in g {
        assert Without(s, g)[1..] == Without(s[1..], g);
      }
    }
  }

  /** Claiming the `k` oldest unclaimed entries removes exactly those from the front. */
  lemma {:induction false} ClaimTakesFront<T>(p: Pool<T>, k: nat)
    requires ValidPool(p) && k <= |Unclaimed(p)|
    ensures ValidPool(Claim(p, Unclaimed(p)[..k]))
    ensures Unclaimed(Claim(p, Unclaimed(p)[..k])) == Unclaimed(p)[k..]
  {
    var u := Unclaimed(p);
    WithoutMembers(p.candidates, p.processing);
    WithoutTwice(p.candidates, p.processing, Elements(u[..k]));
    assert u == u[..k] + u[k..];
    WithoutAppend(u[..k], u[k..], Elements(u[..k]));
    WithoutAll(u[..k], Elements(u[..k]));
    forall x | x in u[k..] ensures x !in Elements(u[..k]) {
      var i :| k <= i < |u| && u[i] == x;
      assert forall j :: 0 <= j < k ==> u[j] != u[i];
    }
    WithoutAgree(u[k..], Elements(u[..k]), {});
    WithoutNone(u[k..]);
  }

  lemma {:induction false} WithoutAll<T>(s: seq<T>, g: set<T>)
    requires forall x :: x in s ==> x in g
    ensures Without(s, g) == []
  {
    if s != [] {
      assert s[0] in s;
      assert forall x :: x in s[1..] ==> x in s;
      WithoutAll(s[1..], g);
    }
  }

  lemma {:induction false} WithoutNone<T>(s: seq<T>)
    ensures Without(s, {}) == s
  {
    if s != [] {
      WithoutNone(s[1..]);
    }
  }

  /** Releasing claimed entries leaves the unclaimed ones alone. */
  lemma ReleaseKeepsUnclaimed<T>(p: Pool<T>, xs: seq<T>)
    requires ValidPool(p) && Elements(xs) <= p.processing
    ensures ValidPool(Release(p, xs))
    ensures Unclaimed(Release(p, xs)) == Unclaimed(p)
  {
    var gone := Elements(xs);
    WithoutMembers(p.candidates, gone);
    WithoutTwice(p.candidates, gone, p.processing - gone);
    assert gone + (p.processing - gone) == p.processing;
  }

  lemma NothingClaimedOrReleased<T>(p: Pool<T>)
    ensures Claim(p, []) == p && Release(p, []) == p
  {
    WithoutNone(p.candidates);
    assert Elements<T>([]) == {};
  }

  lemma InsertAddsOne<T>(p: Pool<T>, x: T)
    requires ValidPool(p)
    ensures ValidPool(Insert(p, x))
    ensures Unclaimed(Insert(p, x)) == if x in p.candidates then Unclaimed(p) else Unclaimed(p) + [x]
  {
    if x !in p.candidates {
      WithoutAppend(p.candidates, [x], p.processing);
    }
  }

  /** There are never more entries in processing than candidates. */
  lemma {:induction false} ProcessingFits<T>(p: Pool<T>)
    requires ValidPool(p)
    ensures |p.processing| <= |p.candidates|
  {
    SetFits(p.processing, p.candidates);
  }

  lemma {:induction false} SetFits<T>(xs: set<T>, s: seq<T>)
    requires forall x :: x in xs ==> x in s
    ensures |xs| <= |s|
  {
    if s == [] {
      assert xs == {};
    } else {
      SetFits(xs - {s[0]}, s[1..]);
      assert |xs| <= |xs - {s[0]}| + 1 by {
        if s[0] in xs {
        } else {
          assert xs - {s[0]} == xs;
        }
      }
    }
  }
}

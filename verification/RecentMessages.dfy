/** A bounded list of distinct messages, the one that occurred last at the end. */
module RecentMessages {

  /** Without the first occurrence of the message. */
  function Drop<T(==)>(s: seq<T>, x: T): seq<T> {
    if s == [] then [] else if s[0] == x then s[1..] else [s[0]] + Drop(s[1..], x)
  }

  lemma {:induction false} DropAbsent<T>(s: seq<T>, x: T)
    requires forall i :: 0 <= i < |s| ==> s[i] != x
    ensures Drop(s, x) == s
  {
    if s != [] {
      DropAbsent(s[1..], x);
      assert s == [s[0]] + s[1..];
    }
  }

  lemma {:induction false} DropAt<T>(s: seq<T>, x: T, pos: nat)
    requires pos < |s| && s[pos] == x && forall i :: 0 <= i < pos ==> s[i] != x
    ensures Drop(s, x) == s[..pos] + s[pos + 1..]
  {
    if pos > 0 {
      DropAt(s[1..], x, pos - 1);
      assert s[..pos] == [s[0]] + s[1..][..pos - 1];
      assert s[1..][pos..] == s[pos + 1..];
    }
  }

  /** Searches the message and removes it. */
  method RemoveFirst<T(==)>(s: seq<T>, x: T) returns (r: seq<T>)
    ensures r == Drop(s, x)
  {
    for pos := 0 to |s|
      invariant forall i :: 0 <= i < pos ==> s[i] != x
    {
      if s[pos] == x {
        DropAt(s, x, pos);
        return s[..pos] + s[pos + 1..];
      }
    }
    DropAbsent(s, x);
    return s;
  }

  lemma {:induction false} DropLength<T>(s: seq<T>, x: T)
    ensures |s| - 1 <= |Drop(s, x)| <= |s|
  {
    if s != [] {
      DropLength(s[1..], x);
    }
  }

  lemma {:induction false} DropMembers<T>(s: seq<T>, x: T)
    requires NoDuplicates(s)
    ensures forall y :: y in Drop(s, x) <==> y in s && y != x
  {
    if s != [] {
      DropMembers(s[1..], x);
      assert s == [s[0]] + s[1..];
      assert s[0] !in s[1..];
    }
  }

  /** Moves the message to the end, or appends it and drops the oldest beyond `keep`. */
  function Remember<T(==)>(errors: seq<T>, message: T, keep: nat): seq<T> {
    var all := Drop(errors, message) + [message];
    if |all| > keep then all[1..] else all
  }

  ghost predicate NoDuplicates<T>(s: seq<T>) {
    forall i, j :: 0 <= i < j < |s| ==> s[i] != s[j]
  }

  function LastK<T>(s: seq<T>, k: nat): seq<T> {
    if |s| <= k then s else s[|s| - k..]
  }

  /** The distinct entries of a history, ordered by their last occurrence. */
  function Distinct<T(==)>(history: seq<T>): seq<T> {
    if history == [] then []
    else Drop(Distinct(history[..|history| - 1]), history[|history| - 1]) + [history[|history| - 1]]
  }

  /** Index of an entry's last occurrence. */
  function LastIndex<T(==)>(history: seq<T>, x: T): int {
    if history == [] then -1
    else if history[|history| - 1] == x then |history| - 1
    else LastIndex(history[..|history| - 1], x)
  }

  lemma {:induction false} LastIndexFinds<T>(history: seq<T>, x: T)
    ensures -1 <= LastIndex(history, x) < |history|
    ensures LastIndex(history, x) >= 0 <==> x in history
  {
    if history != [] {
      var n := |history| - 1;
      LastIndexFinds(history[..n], x);
      assert history == history[..n] + [history[n]];
    }
  }

  ghost predicate ByLastOccurrence<T>(s: seq<T>, history: seq<T>) {
    && (forall i :: 0 <= i < |s| ==> s[i] in history)
    && (forall i, j :: 0 <= i < j < |s| ==> LastIndex(history, s[i]) < LastIndex(history, s[j]))
  }

  /** Dropping one entry keeps the others in order. */
  lemma {:induction false} DropKeepsOrder<T>(d: seq<T>, m: T, history: seq<T>)
    requires ByLastOccurrence(d, history)
    ensures ByLastOccurrence(Drop(d, m), history)
  {
    if d != [] {
      DropKeepsOrder(d[1..], m, history);
      OrderedNoDuplicates(d[1..], history);
      DropMembers(d[1..], m);
      var rest := Drop(d[1..], m);
      forall i | 0 <= i < |rest| ensures LastIndex(history, d[0]) < LastIndex(history, rest[i]) {
        assert rest[i] in d[1..];
        var k :| 0 <= k < |d[1..]| && d[1..][k] == rest[i];
        assert d[k + 1] == rest[i];
      }
    }
  }

  /** One more message keeps the order of the others. */
  lemma AppendKeepsOrder<T>(rest: seq<T>, history: seq<T>, m: T)
    requires ByLastOccurrence(rest, history) && m !in rest
    ensures ByLastOccurrence(rest + [m], history + [m])
  {
    var s, h := rest + [m], history + [m];
    assert h[..|history|] == history;
    forall i | 0 <= i < |s| ensures s[i] in h && LastIndex(h, s[i]) == if i < |rest| then LastIndex(history, s[i]) else |history| {
      assert h[|history|] == m;
      if i < |rest| {
        assert s[i] == rest[i] && rest[i] in history;
      }
    }
    forall i, j | 0 <= i < j < |s| ensures LastIndex(h, s[i]) < LastIndex(h, s[j]) {
      LastIndexFinds(history, s[i]);
    }
  }

  /** Exactly the messages of the history, each once, ordered by last occurrence. */
  lemma {:induction false} DistinctSpec<T>(history: seq<T>)
    ensures ByLastOccurrence(Distinct(history), history)
    ensures forall x :: x in Distinct(history) <==> x in history
  {
    if history != [] {
      var n := |history| - 1;
      DistinctSpec(history[..n]);
      assert history == history[..n] + [history[n]];
      DistinctStep(Distinct(history[..n]), history[..n], history[n]);
    }
  }

  lemma {:induction false} DistinctStep<T>(d: seq<T>, history: seq<T>, m: T)
    requires ByLastOccurrence(d, history) && forall x :: x in d <==> x in history
    ensures ByLastOccurrence(Drop(d, m) + [m], history + [m])
    ensures forall x :: x in Drop(d, m) + [m] <==> x in history + [m]
  {
    DropKeepsOrder(d, m, history);
    OrderedNoDuplicates(d, history);
    DropMembers(d, m);
    AppendKeepsOrder(Drop(d, m), history, m);
  }

  lemma {:induction false} OrderedNoDuplicates<T>(s: seq<T>, history: seq<T>)
    requires ByLastOccurrence(s, history)
    ensures NoDuplicates(s)
  {
  }

  lemma LastKBehind<T>(s: seq<T>, a: T, k: nat)
    requires |s| >= k
    ensures LastK([a] + s, k) == LastK(s, k)
  {
  }

  lemma {:induction false} RememberShort<T>(d: seq<T>, m: T, keep: nat)
    requires |d| <= keep
    ensures Remember(d, m, keep) == LastK(Drop(d, m) + [m], keep)
  {
    DropLength(d, m);
  }

  /** Forgetting the oldest beyond `keep` commutes with recording a message. */
  lemma {:induction false} RememberBounded<T>(d: seq<T>, m: T, keep: nat)
    requires NoDuplicates(d)
    ensures Remember(LastK(d, keep), m, keep) == LastK(Drop(d, m) + [m], keep)
  {
    if |d| <= keep {
      RememberShort(d, m, keep);
    } else {
      var rest := d[1..];
      RememberBounded(rest, m, keep);
      assert d == [d[0]] + rest;
      LastKBehind(rest, d[0], keep);
      DropBehind(d, m, keep);
    }
  }

  lemma {:induction false} DropBehind<T>(d: seq<T>, m: T, keep: nat)
    requires NoDuplicates(d) && |d| > keep
    ensures LastK(Drop(d, m) + [m], keep) == LastK(Drop(d[1..], m) + [m], keep)
  {
    var rest := d[1..];
    if d[0] == m {
      DropAbsent(rest, m);
    } else {
      DropLength(rest, m);
      assert Drop(d, m) + [m] == [d[0]] + (Drop(rest, m) + [m]);
      LastKBehind(Drop(rest, m) + [m], d[0], keep);
    }
  }

  /** The bounded list is the end of the list of all distinct messages. */
  lemma RememberRefines<T>(history: seq<T>, m: T, keep: nat)
    ensures Remember(LastK(Distinct(history), keep), m, keep) == LastK(Distinct(history + [m]), keep)
  {
    DistinctSpec(history);
    OrderedNoDuplicates(Distinct(history), history);
    RememberBounded(Distinct(history), m, keep);
    assert (history + [m])[..|history|] == history;
  }

  /** What is kept are messages of the history without duplicates, ordered by last occurrence. */
  lemma {:induction false} KeptInOrder<T>(history: seq<T>, keep: nat)
    ensures ByLastOccurrence(LastK(Distinct(history), keep), history)
    ensures NoDuplicates(LastK(Distinct(history), keep))
  {
    DistinctSpec(history);
    var d, kept := Distinct(history), LastK(Distinct(history), keep);
    assert forall i :: 0 <= i < |kept| ==> kept[i] == d[|d| - |kept| + i];
    OrderedNoDuplicates(kept, history);
  }

  /** A message that is not listed last occurred before all that are. */
  lemma {:induction false} ListedAreLatest<T>(history: seq<T>, keep: nat, x: T)
    requires x in history && x !in LastK(Distinct(history), keep)
    ensures |LastK(Distinct(history), keep)| == keep
    ensures forall i :: 0 <= i < keep ==> LastIndex(history, x) < LastIndex(history, LastK(Distinct(history), keep)[i])
  {
    DistinctSpec(history);
    var d := Distinct(history);
    var p :| 0 <= p < |d| && d[p] == x;
    var kept := LastK(d, keep);
    var cut := |d| - |kept|;
    assert forall i :: 0 <= i < |kept| ==> kept[i] == d[cut + i];
    assert p < cut;
  }
}

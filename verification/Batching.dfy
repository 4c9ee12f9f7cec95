/**
 Packing instructions into transactions in order: an instruction joins the current batch
 if the batch still fits, and otherwise starts the next one.
 */
module Batching {

  function Flatten<A>(batches: seq<seq<A>>): seq<A> {
    if batches == [] then [] else batches[0] + Flatten(batches[1..])
  }

  /** The batches still to be sent when `current` is open and `rest` is to come. */
  function Greedy<A>(current: seq<A>, rest: seq<A>, fits: seq<A> -> bool): seq<seq<A>>
    decreases |rest|
  {
    if rest == [] then if current == [] then [] else [current]
    else if current == [] || fits(current + [rest[0]]) then Greedy(current + [rest[0]], rest[1..], fits)
    else [current] + Greedy([rest[0]], rest[1..], fits)
  }

  /** One instruction's effect on what is sent in the end. */
  lemma PackNext<A>(sent: seq<seq<A>>, current: seq<A>, list: seq<A>, i: nat, fits: seq<A> -> bool)
    requires i < |list|
    ensures current == [] || fits(current + [list[i]])
            ==> Greedy(current, list[i..], fits) == Greedy(current + [list[i]], list[i + 1..], fits)
    ensures current != [] && !fits(current + [list[i]])
            ==> sent + Greedy(current, list[i..], fits) == sent + [current] + Greedy([list[i]], list[i + 1..], fits)
  {
  }

  /** Not empty, and fitting unless it is a single instruction that is sent anyway. */
  predicate Okay<A>(batch: seq<A>, fits: seq<A> -> bool) {
    |batch| == 1 || (|batch| > 1 && fits(batch))
  }

  ghost predicate AllOkay<A>(batches: seq<seq<A>>, fits: seq<A> -> bool) {
    forall i :: 0 <= i < |batches| ==> Okay(batches[i], fits)
  }

  /** Every instruction is sent exactly once and in order, in batches that fit. */
  lemma {:induction false} GreedyIsLossless<A>(current: seq<A>, rest: seq<A>, fits: seq<A> -> bool)
    requires current == [] || Okay(current, fits)
    ensures Flatten(Greedy(current, rest, fits)) == current + rest
    ensures AllOkay(Greedy(current, rest, fits), fits)
    decreases |rest|
  {
    if rest == [] {
      assert current + rest == current;
    } else if current == [] || fits(current + [rest[0]]) {
      GreedyIsLossless(current + [rest[0]], rest[1..], fits);
      assert current + [rest[0]] + rest[1..] == current + rest;
    } else {
      GreedyIsLossless([rest[0]], rest[1..], fits);
      assert [rest[0]] + rest[1..] == rest;
      var tail := Greedy([rest[0]], rest[1..], fits);
      assert ([current] + tail)[1..] == tail;
    }
  }

  // ---------- no other cutting needs fewer transactions ----------

  ghost predicate Part<A>(b: seq<A>, c: seq<A>) {
    exists i, j :: 0 <= i <= j <= |c| && b == c[i..j]
  }

  /** What fits still fits without its ends. */
  ghost predicate Monotone<A(!new)>(fits: seq<A> -> bool) {
    forall b, c :: fits(c) && Part(b, c) ==> fits(b)
  }

  ghost predicate Suffix<A>(b: seq<A>, c: seq<A>) {
    |b| <= |c| && b == c[|c| - |b|..]
  }

  lemma SuffixFits<A(!new)>(current: seq<A>, x: seq<A>, y: seq<A>, fits: seq<A> -> bool)
    requires Monotone(fits) && Suffix(current, x) && y != [] && x != [] && Okay(x + y, fits)
    ensures fits(current + [y[0]])
  {
    var b, c := current + [y[0]], x + y;
    assert b == c[|x| - |current|..|x| + 1];
    assert Part(b, c);
  }

  lemma SuffixExtends<A>(current: seq<A>, x: seq<A>, a: A)
    requires Suffix(current, x)
    ensures Suffix(current + [a], x + [a])
  {
  }

  /** Another cutting of `rest` whose open batch holds `x` and will still take `y`. */
  ghost predicate Cutting<A>(x: seq<A>, y: seq<A>, tail: seq<seq<A>>, rest: seq<A>, fits: seq<A> -> bool) {
    x != [] && Okay(x + y, fits) && AllOkay(tail, fits) && y + Flatten(tail) == rest
  }

  /** Following the cutting by one instruction, within its batch or into its next one. */
  lemma FollowCutting<A>(x: seq<A>, y: seq<A>, tail: seq<seq<A>>, rest: seq<A>, fits: seq<A> -> bool)
    requires Cutting(x, y, tail, rest, fits) && rest != []
    ensures y != [] ==> y[0] == rest[0] && Cutting(x + [rest[0]], y[1..], tail, rest[1..], fits)
    ensures y == [] ==> tail != [] && Cutting([rest[0]], tail[0][1..], tail[1..], rest[1..], fits)
  {
    if y != [] {
      assert x + [rest[0]] + y[1..] == x + y;
      assert rest[1..] == y[1..] + Flatten(tail);
    } else {
      var t := tail[0];
      assert rest == t + Flatten(tail[1..]);
      assert [rest[0]] + t[1..] == t;
      assert rest[1..] == t[1..] + Flatten(tail[1..]);
    }
  }

  /** While the open batch holds no more than the cutting's, packing is not behind. */
  lemma {:induction false} NotBehind<A(!new)>(current: seq<A>, x: seq<A>, y: seq<A>, tail: seq<seq<A>>, rest: seq<A>, fits: seq<A> -> bool)
    requires Monotone(fits) && current != [] && Suffix(current, x) && Cutting(x, y, tail, rest, fits)
    ensures |Greedy(current, rest, fits)| <= 1 + |tail|
    decreases |rest|
  {
    if rest != [] {
      FollowCutting(x, y, tail, rest, fits);
      if y != [] {
        SuffixFits(current, x, y, fits);
        SuffixExtends(current, x, rest[0]);
        NotBehind(current + [rest[0]], x + [rest[0]], y[1..], tail, rest[1..], fits);
      } else if fits(current + [rest[0]]) {
        OneAhead(current + [rest[0]], [rest[0]], tail[0][1..], tail[1..], rest[1..], fits);
      } else {
        NotBehind([rest[0]], [rest[0]], tail[0][1..], tail[1..], rest[1..], fits);
      }
    }
  }

  /** One batch ahead of the cutting, whatever the open batch holds. */
  lemma {:induction false} OneAhead<A(!new)>(current: seq<A>, x: seq<A>, y: seq<A>, tail: seq<seq<A>>, rest: seq<A>, fits: seq<A> -> bool)
    requires Monotone(fits) && current != [] && Cutting(x, y, tail, rest, fits)
    ensures |Greedy(current, rest, fits)| <= 2 + |tail|
    decreases |rest|
  {
    if rest != [] {
      FollowCutting(x, y, tail, rest, fits);
      var a := rest[0];
      if fits(current + [a]) {
        if y != [] {
          OneAhead(current + [a], x + [a], y[1..], tail, rest[1..], fits);
        } else {
          OneAhead(current + [a], [a], tail[0][1..], tail[1..], rest[1..], fits);
        }
      } else if y != [] {
        assert Suffix([a], x + [a]);
        NotBehind([a], x + [a], y[1..], tail, rest[1..], fits);
      } else {
        NotBehind([a], [a], tail[0][1..], tail[1..], rest[1..], fits);
      }
    }
  }

  /** No way of cutting the instructions into batches that fit takes fewer transactions. */
  lemma GreedyIsOptimal<A(!new)>(list: seq<A>, batches: seq<seq<A>>, fits: seq<A> -> bool)
    requires Monotone(fits) && AllOkay(batches, fits) && Flatten(batches) == list
    ensures |Greedy([], list, fits)| <= |batches|
  {
    if list != [] {
      var first := batches[0];
      assert [first[0]] + first[1..] == first;
      assert list[1..] == first[1..] + Flatten(batches[1..]);
      assert [] + [list[0]] == [list[0]];
      NotBehind([list[0]], [list[0]], first[1..], batches[1..], list[1..], fits);
    }
  }

  // ---------- the keeper's loop ----------

  /**
   Sends the batch before the instruction that no longer fits. If the very first
   instruction does not fit, the batch before it is empty and is sent as well.
   */
  method SendBatched<A>(list: seq<A>, fits: seq<A> -> bool) returns (sent: seq<seq<A>>)
    ensures sent == (if list != [] && !fits([list[0]]) then [[]] else []) + Greedy([], list, fits)
  {
    sent := [];
    var current := [];
    ghost var empty: seq<seq<A>> := if list != [] && !fits([list[0]]) then [[]] else [];
    for i := 0 to |list|
      invariant current == [] <==> i == 0
      invariant sent + Greedy(current, list[i..], fits) == (if i == 0 then [] else empty) + Greedy([], list, fits)
      invariant i == 0 ==> sent == []
    {
      PackNext(sent, current, list, i, fits);
      var previous := current;
      current := current + [list[i]];
      assert i == 0 ==> current == [list[0]];
      if !fits(current) {
        sent := sent + [previous];
        current := [list[i]];
      }
    }
    if current != [] {
      sent := sent + [current];
    }
  }
}

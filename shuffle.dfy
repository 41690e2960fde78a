/** `random.shuffle`, with the random number generator made an explicit
    object.  The generator is a stream of arbitrary numbers; each shuffle
    reads one number and uses it as the index of a permutation, so that
    every order the library could produce is reachable. */
module Shuffle {

  /** The permutation of `xs` numbered `code`: the first element is
      `xs[code % |xs|]`, the rest is the permutation of the remaining
      elements numbered `code / |xs|`. */
  function Shuffled<T>(xs: seq<T>, code: nat): (r: seq<T>)
    ensures multiset(r) == multiset(xs)
    decreases |xs|
  {
    if xs == [] then []
    else
      var k := code % |xs|;
      assert xs == xs[..k] + [xs[k]] + xs[k + 1..];
      [xs[k]] + Shuffled(xs[..k] + xs[k + 1..], code / |xs|)
  }

  /** A shuffle holds exactly the elements it was given. */
  lemma ShuffledMembers<T>(xs: seq<T>, code: nat)
    ensures forall x :: x in Shuffled(xs, code) <==> x in xs
  {
    var r := Shuffled(xs, code);
    assert forall x :: x in r <==> x in multiset(r);
    assert forall x :: x in xs <==> x in multiset(xs);
  }

  /** Removing the element at `k` from both sides of a rearrangement whose
      head is that element leaves a rearrangement. */
  lemma RemoveHead<T>(xs: seq<T>, ys: seq<T>, k: nat)
    requires k < |xs| && ys != [] && xs[k] == ys[0]
    requires multiset(ys) == multiset(xs)
    ensures multiset(ys[1..]) == multiset(xs[..k] + xs[k + 1..])
  {
    assert xs == xs[..k] + [xs[k]] + xs[k + 1..];
    assert ys == [ys[0]] + ys[1..];
    assert multiset(ys[1..]) == multiset(ys) - multiset{ys[0]};
    assert multiset(xs[..k] + xs[k + 1..]) == multiset(xs) - multiset{xs[k]};
  }

  lemma DivModUnique(q: nat, c: nat, k: nat, n: nat)
    requires k < n && q == c * n + k
    ensures q % n == k && q / n == c
  {
    var d, r := q / n, q % n;
    assert q == d * n + r && 0 <= r < n;
    assert (c - d) * n == r - k;
    if c - d >= 1 {
    } else if c - d <= -1 {
    }
  }

  /** The code that puts `xs[k]` first and then orders the rest by `c`. */
  lemma ShuffledStep<T>(xs: seq<T>, k: nat, c: nat) returns (code: nat)
    requires k < |xs|
    ensures Shuffled(xs, code) == [xs[k]] + Shuffled(xs[..k] + xs[k + 1..], c)
  {
    code := c * |xs| + k;
    DivModUnique(code, c, k, |xs|);
    assert code % |xs| == k && code / |xs| == c;
  }

  /** An element of the multiset of `xs` sits at some index of `xs`. */
  lemma IndexOf<T>(xs: seq<T>, y: T) returns (k: nat)
    requires y in multiset(xs)
    ensures k < |xs| && xs[k] == y
  {
    assert y in xs;
    k :| 0 <= k < |xs| && xs[k] == y;
  }

  /** Every order is reachable: each rearrangement of `xs` is the
      permutation numbered by some code. */
  lemma {:induction false} ShuffledReachesAll<T>(xs: seq<T>, ys: seq<T>)
    requires multiset(ys) == multiset(xs)
    ensures exists code: nat :: Shuffled(xs, code) == ys
    decreases |xs|
  {
    if xs == [] {
      assert ys == [];
      assert Shuffled(xs, 0) == ys;
    } else {
      assert ys != [] by {
        assert |multiset(ys)| == |multiset(xs)| > 0;
      }
      var k := IndexOf(xs, ys[0]);
      var rest := xs[..k] + xs[k + 1..];
      RemoveHead(xs, ys, k);
      ShuffledReachesAll(rest, ys[1..]);
      var c: nat :| Shuffled(rest, c) == ys[1..];
      var code := ShuffledStep(xs, k, c);
      assert ys == [ys[0]] + ys[1..];
      assert Shuffled(xs, code) == ys;
    }
  }

  /** The module-level generator of the `random` module. */
  class Random {
    /** The numbers the generator will hand out, one per shuffle. */
    const stream: nat -> nat
    /** How many numbers have been drawn so far. */
    var draws: nat

    constructor (stream: nat -> nat)
      ensures this.stream == stream && draws == 0
    {
      this.stream := stream;
      draws := 0;
    }

    /** A shuffled copy of `xs`; draws one number. */
    method Shuffle<T>(xs: seq<T>) returns (ys: seq<T>)
      modifies this`draws
      ensures ys == Shuffled(xs, stream(old(draws))) && |ys| == |xs|
      ensures draws == old(draws) + 1
    {
      ys := Shuffled(xs, stream(draws));
      assert |ys| == |multiset(ys)| == |multiset(xs)| == |xs|;
      draws := draws + 1;
    }
  }
}

/** The scheduler's random source, made explicit: a stream of draws supplied
    by the caller.  Every property of the scheduler is proved for every
    stream.  Each shuffle outcome and each bounded draw is produced by a
    stream prefix that it consumes exactly, leaving the rest of the stream
    to the next random choice. */
module Randomness {

  type Draws = seq<nat>

  /** One bounded draw: the next value of the stream reduced below `bound`
      (0 once the stream is exhausted). */
  function NextInt(rng: Draws, bound: nat): (r: (nat, Draws))
    requires bound > 0
    ensures r.0 < bound
    ensures |rng| > 0 ==> r.1 == rng[1..]
  {
    if |rng| == 0 then (0, rng) else (rng[0] % bound, rng[1..])
  }

  /** A draw already below the bound is taken as it is, and only it is consumed. */
  lemma NextIntExact(j: nat, t: Draws, bound: nat)
    requires j < bound
    ensures NextInt([j] + t, bound) == (j, t)
  {
    assert ([j] + t)[1..] == t;
  }

  /** A shuffle driven by the stream: repeatedly take out the element at a
      drawn position of what remains. */
  function Shuffle<T>(xs: seq<T>, rng: Draws): (r: (seq<T>, Draws))
    ensures multiset(r.0) == multiset(xs)
    decreases |xs|
  {
    if |xs| == 0 then ([], rng)
    else
      var (k, rest) := NextInt(rng, |xs|);
      var (tail, rng') := Shuffle(RemoveAt(xs, k), rest);
      ([xs[k]] + tail, rng')
  }

  /** A shuffle neither loses nor invents elements. */
  lemma ShuffleKeepsMembers<T>(xs: seq<T>, rng: Draws)
    ensures forall x :: x in Shuffle(xs, rng).0 <==> x in xs
  {
    var ys := Shuffle(xs, rng).0;
    forall x ensures x in ys <==> x in xs {
      assert x in ys <==> x in multiset(ys);
      assert x in xs <==> x in multiset(xs);
    }
  }

  function IndexOf<T(==)>(xs: seq<T>, x: T): (k: nat)
    requires x in xs
    ensures k < |xs| && xs[k] == x
  {
    if xs[0] == x then 0 else 1 + IndexOf(xs[1..], x)
  }

  lemma SmallModulus(k: nat, n: nat)
    requires k < n
    ensures k % n == k
  {
  }

  /** Removes the element at position `k`. */
  function RemoveAt<T>(xs: seq<T>, k: nat): (r: seq<T>)
    requires k < |xs|
    ensures multiset(r) == multiset(xs) - multiset{xs[k]}
    ensures |r| == |xs| - 1
  {
    assert xs == xs[..k] + [xs[k]] + xs[k+1..];
    xs[..k] + xs[k+1..]
  }

  /** Taking out the first element of a reordering `p` of `xs` leaves a
      reordering of `xs` with that element taken out. */
  lemma PeelFirst<T>(xs: seq<T>, p: seq<T>)
    requires multiset(p) == multiset(xs) && |xs| > 0
    ensures |p| == |xs| && p[0] in xs
    ensures multiset(p[1..]) == multiset(RemoveAt(xs, IndexOf(xs, p[0])))
  {
    assert |p| == |multiset(p)| == |multiset(xs)| == |xs|;
    assert p[0] in multiset(xs);
    var k := IndexOf(xs, p[0]);
    SeqHeadTail(p);
    assert multiset(p) == multiset([p[0]]) + multiset(p[1..]);
    assert multiset(p[1..]) == multiset(xs) - multiset{xs[k]};
  }

  /** A stream that makes `Shuffle(xs, .)` produce the reordering `p`. */
  function DrawsFor<T(==)>(xs: seq<T>, p: seq<T>): Draws
    requires multiset(p) == multiset(xs)
    decreases |xs|
  {
    if |xs| == 0 then []
    else
      PeelFirst(xs, p);
      var k := IndexOf(xs, p[0]);
      [k] + DrawsFor(RemoveAt(xs, k), p[1..])
  }

  /** A stream starting with an in-range position takes exactly that element first. */
  lemma ShuffleStep<T>(xs: seq<T>, k: nat, tail: Draws)
    requires k < |xs|
    ensures Shuffle(xs, [k] + tail).0 == [xs[k]] + Shuffle(RemoveAt(xs, k), tail).0
    ensures Shuffle(xs, [k] + tail).1 == Shuffle(RemoveAt(xs, k), tail).1
  {
    var d := [k] + tail;
    assert d[0] == k && d[1..] == tail;
    SmallModulus(k, |xs|);
    assert NextInt(d, |xs|) == (k, tail);
  }

  lemma SeqHeadTail<T>(p: seq<T>)
    requires |p| > 0
    ensures p == [p[0]] + p[1..]
  {
  }

  /** Every reordering of `xs` is the outcome of some stream of draws. */
  lemma {:induction false} ShuffleReachesEveryOrder<T>(xs: seq<T>, p: seq<T>)
    requires multiset(p) == multiset(xs)
    ensures Shuffle(xs, DrawsFor(xs, p)).0 == p
    decreases |xs|
  {
    if |xs| == 0 {
      assert |p| == |multiset(p)| == 0;
    } else {
      PeelFirst(xs, p);
      var k := IndexOf(xs, p[0]);
      ShuffleReachesEveryOrder(RemoveAt(xs, k), p[1..]);
      ReachStep(xs, p, k);
    }
  }

  lemma ReachStep<T>(xs: seq<T>, p: seq<T>, k: nat)
    requires multiset(p) == multiset(xs) && |xs| > 0
    requires p[0] in xs && k == IndexOf(xs, p[0])
    requires multiset(p[1..]) == multiset(RemoveAt(xs, k))
    requires Shuffle(RemoveAt(xs, k), DrawsFor(RemoveAt(xs, k), p[1..])).0 == p[1..]
    ensures Shuffle(xs, DrawsFor(xs, p)).0 == p
  {
    var rest := RemoveAt(xs, k);
    var tailDraws := DrawsFor(rest, p[1..]);
    assert DrawsFor(xs, p) == [k] + tailDraws;
    ShuffleStep(xs, k, tailDraws);
    SeqHeadTail(p);
  }

  /** The stream `DrawsFor(xs, p)` is consumed exactly by the shuffle that
      yields `p`: whatever follows it is left for the next random choice. */
  lemma {:induction false} ShuffleConsumesExactly<T>(xs: seq<T>, p: seq<T>, t: Draws)
    requires multiset(p) == multiset(xs)
    ensures Shuffle(xs, DrawsFor(xs, p) + t).0 == p
    ensures Shuffle(xs, DrawsFor(xs, p) + t).1 == t
    decreases |xs|
  {
    if |xs| == 0 {
      assert |p| == |multiset(p)| == 0;
      assert DrawsFor(xs, p) + t == t;
    } else {
      PeelFirst(xs, p);
      var k := IndexOf(xs, p[0]);
      ShuffleConsumesExactly(RemoveAt(xs, k), p[1..], t);
      ConsumeStepOrder(xs, p, k, t);
      ConsumeStepRest(xs, p, k, t);
    }
  }

  /** `DrawsFor(xs, p)` starts with the position of `p[0]` in `xs`. */
  lemma DrawsForHead<T>(xs: seq<T>, p: seq<T>, k: nat)
    requires multiset(p) == multiset(xs) && |xs| > 0
    requires p[0] in xs && k == IndexOf(xs, p[0])
    requires multiset(p[1..]) == multiset(RemoveAt(xs, k))
    ensures DrawsFor(xs, p) == [k] + DrawsFor(RemoveAt(xs, k), p[1..])
  {
  }

  lemma AppendAssoc(a: Draws, b: Draws, c: Draws)
    ensures (a + b) + c == a + (b + c)
  {
  }

  lemma ConsumeStepOrder<T>(xs: seq<T>, p: seq<T>, k: nat, t: Draws)
    requires multiset(p) == multiset(xs) && |xs| > 0
    requires p[0] in xs && k == IndexOf(xs, p[0])
    requires multiset(p[1..]) == multiset(RemoveAt(xs, k))
    requires Shuffle(RemoveAt(xs, k), DrawsFor(RemoveAt(xs, k), p[1..]) + t).0 == p[1..]
    ensures Shuffle(xs, DrawsFor(xs, p) + t).0 == p
  {
    var tail := DrawsFor(RemoveAt(xs, k), p[1..]) + t;
    DrawsForHead(xs, p, k);
    AppendAssoc([k], DrawsFor(RemoveAt(xs, k), p[1..]), t);
    ShuffleStep(xs, k, tail);
    SeqHeadTail(p);
  }

  lemma ConsumeStepRest<T>(xs: seq<T>, p: seq<T>, k: nat, t: Draws)
    requires multiset(p) == multiset(xs) && |xs| > 0
    requires p[0] in xs && k == IndexOf(xs, p[0])
    requires multiset(p[1..]) == multiset(RemoveAt(xs, k))
    requires Shuffle(RemoveAt(xs, k), DrawsFor(RemoveAt(xs, k), p[1..]) + t).1 == t
    ensures Shuffle(xs, DrawsFor(xs, p) + t).1 == t
  {
    var tail := DrawsFor(RemoveAt(xs, k), p[1..]) + t;
    DrawsForHead(xs, p, k);
    AppendAssoc([k], DrawsFor(RemoveAt(xs, k), p[1..]), t);
    ShuffleStep(xs, k, tail);
  }
}

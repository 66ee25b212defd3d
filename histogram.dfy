/**
 * The `{length: count}` dictionaries of the length-statistics tool, filled by
 * `statistics[x] = statistics.get(x, 0) + 1`.
 */
module Histograms {

  type Histogram = map<nat, nat>

  /** `statistics.get(x, 0)`. */
  function Count(h: Histogram, x: nat): nat
  {
    if x in h then h[x] else 0
  }

  /** `statistics[x] = statistics.get(x, 0) + 1`. */
  function Bump(h: Histogram, x: nat): (r: Histogram)
    ensures r.Keys == h.Keys + {x}
    ensures Count(r, x) == Count(h, x) + 1
    ensures forall y :: y != x ==> Count(r, y) == Count(h, y)
  {
    h[x := Count(h, x) + 1]
  }

  /** The dictionary after bumping every value of `xs` in order, starting from `{}`. */
  function HistogramOf(xs: seq<nat>): Histogram
  {
    if xs == [] then map[] else Bump(HistogramOf(xs[..|xs| - 1]), xs[|xs| - 1])
  }

  lemma HistogramSnoc(xs: seq<nat>, x: nat)
    ensures HistogramOf(xs + [x]) == Bump(HistogramOf(xs), x)
  {
    assert (xs + [x])[..|xs|] == xs;
  }

  /** Each length is counted as often as it occurs, a length occurs as a key exactly when it was seen, and no count is zero. */
  lemma {:induction false} HistogramCounts(xs: seq<nat>)
    ensures forall x :: Count(HistogramOf(xs), x) == multiset(xs)[x]
    ensures forall x :: x in HistogramOf(xs) <==> x in xs
    ensures forall x :: x in HistogramOf(xs) ==> HistogramOf(xs)[x] >= 1
  {
    if xs != [] {
      var init, last := xs[..|xs| - 1], xs[|xs| - 1];
      HistogramCounts(init);
      assert xs == init + [last];
      assert multiset(xs) == multiset(init) + multiset{last};
    }
  }

  /** The order the values arrive in does not matter. */
  lemma HistogramOrderFree(xs: seq<nat>, ys: seq<nat>)
    requires multiset(xs) == multiset(ys)
    ensures HistogramOf(xs) == HistogramOf(ys)
  {
    HistogramCounts(xs);
    HistogramCounts(ys);
    forall x ensures x in HistogramOf(xs) <==> x in HistogramOf(ys) {
      assert x in xs <==> x in multiset(xs);
      assert x in ys <==> x in multiset(ys);
    }
    forall x | x in HistogramOf(xs) ensures HistogramOf(xs)[x] == HistogramOf(ys)[x] {
      assert Count(HistogramOf(xs), x) == Count(HistogramOf(ys), x);
    }
    assert HistogramOf(xs).Keys == HistogramOf(ys).Keys;
  }
}

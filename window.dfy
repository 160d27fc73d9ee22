/** The sliding window each accessory keeps of its accepted lux readings
    (`readings`, bounded by `maxElems`, in index.js) and the level it reports
    from the window's mean. Readings are real numbers: floating-point rounding,
    NaN and infinities are not modelled. */
module Window {

  function Min(a: int, b: int): int { if a <= b then a else b }

  /** `arr.reduce((sum, el) => sum + el, 0)`: the sum, taken left to right. */
  function Sum(w: seq<real>): real
  {
    if w == [] then 0.0 else Sum(w[..|w| - 1]) + w[|w| - 1]
  }

  /** `average`: the arithmetic mean of a window, which the accessory only
      computes right after a push, so never on an empty window. */
  function Mean(w: seq<real>): real
    requires |w| > 0
  {
    Sum(w) / (|w| as real)
  }

  /** Bounds on the entries bound their sum. */
  lemma {:induction false} SumWithin(w: seq<real>, lo: real, hi: real)
    requires forall i :: 0 <= i < |w| ==> lo <= w[i] <= hi
    ensures (|w| as real) * lo <= Sum(w) <= (|w| as real) * hi
  {
    if w != [] {
      var init := w[..|w| - 1];
      assert forall i :: 0 <= i < |init| ==> init[i] == w[i];
      SumWithin(init, lo, hi);
      var m := |init| as real;
      assert (|w| as real) * lo == m * lo + lo;
      assert (|w| as real) * hi == m * hi + hi;
    }
  }

  /** The mean lies between any lower and any upper bound of the window's
      entries: averaging never leaves the range of the readings. */
  lemma MeanWithin(w: seq<real>, lo: real, hi: real)
    requires |w| > 0
    requires forall i :: 0 <= i < |w| ==> lo <= w[i] <= hi
    ensures lo <= Mean(w) <= hi
  {
    SumWithin(w, lo, hi);
    var n := |w| as real;
    assert (n * lo) / n == lo;
    assert (n * hi) / n == hi;
  }

  /** A window holding one value repeated has that value as its mean. */
  lemma MeanOfConstant(w: seq<real>, x: real)
    requires |w| > 0
    requires forall i :: 0 <= i < |w| ==> w[i] == x
    ensures Mean(w) == x
  {
    MeanWithin(w, x, x);
  }

  /** `Math.round`: the nearest integer, halves rounded up. */
  function Round(x: real): (r: int)
    ensures r as real - 0.5 <= x < r as real + 0.5
  {
    (x + 0.5).Floor
  }

  /** The value written to the ambient-light characteristic,
      `Math.max(0, Math.min(Math.round(mean), 100000))`. */
  function Level(mean: real): (r: int)
    ensures 0 <= r <= 100000
    ensures r == 0 <==> mean < 0.5
    ensures r == 100000 <==> mean >= 99999.5
    ensures 0 < r < 100000 ==> r as real - 0.5 <= mean < r as real + 0.5
  {
    var n := Round(mean);
    if n < 0 then 0 else if n > 100000 then 100000 else n
  }

  /** `readings.shift()`: drops the oldest entry; on an empty array it does nothing. */
  function Shift(w: seq<real>): seq<real>
  {
    if w == [] then [] else w[1..]
  }

  /** One accepted reading: when the window holds exactly `maxElems` entries the
      oldest is evicted, then the reading is appended: the window grows by one
      unless it was full and non-empty, ends with the reading, and a window
      within a positive capacity stays within it. */
  function Pushed(w: seq<real>, maxElems: int, x: real): (r: seq<real>)
    ensures |r| == if |w| == maxElems && w != [] then |w| else |w| + 1
    ensures r[|r| - 1] == x
    ensures 1 <= maxElems && |w| <= maxElems ==> |r| <= maxElems
  {
    (if |w| == maxElems then Shift(w) else w) + [x]
  }

  /** The entries a push keeps before the new reading are the newest entries
      of the old window, in their order. */
  lemma PushedKeepsNewest(w: seq<real>, maxElems: int, x: real)
    ensures var r := Pushed(w, maxElems, x);
            r[..|r| - 1] == w[|w| - (|r| - 1)..]
  {
    var r := Pushed(w, maxElems, x);
    if |w| == maxElems && w != [] {
      assert r == w[1..] + [x];
    } else {
      assert r == w + [x];
    }
  }

  /** The window after the readings `xs` were accepted in order, starting from
      the empty array the accessory is created with. */
  function Fill(maxElems: int, xs: seq<real>): seq<real>
    decreases |xs|
  {
    if xs == [] then [] else Pushed(Fill(maxElems, xs[..|xs| - 1]), maxElems, xs[|xs| - 1])
  }

  /** Below capacity a push appends: `xs[..n - 1]` plus its last reading is `xs`. */
  lemma PushBelowCapacity(maxElems: int, xs: seq<real>)
    requires 0 < |xs| <= maxElems
    ensures Pushed(xs[..|xs| - 1], maxElems, xs[|xs| - 1]) == xs
  {
    assert xs[..|xs| - 1] + [xs[|xs| - 1]] == xs;
  }

  /** At capacity a push onto the newest `maxElems` readings of `xs[..n - 1]`
      gives the newest `maxElems` readings of `xs`. */
  lemma PushAtCapacity(maxElems: int, xs: seq<real>)
    requires 1 <= maxElems < |xs|
    ensures Pushed(xs[|xs| - 1 - maxElems..|xs| - 1], maxElems, xs[|xs| - 1]) == xs[|xs| - maxElems..]
  {
    var n, x := |xs|, xs[|xs| - 1];
    var w := xs[n - 1 - maxElems..n - 1];
    assert w[1..] + [x] == xs[n - maxElems..] by {
      assert w[1..] == xs[n - maxElems..n - 1];
    }
    assert |w| == maxElems && w != [];
  }

  /** With a capacity of at least one, the window never holds more than
      `maxElems` readings and holds exactly the newest min(n, maxElems)
      accepted readings, in arrival order. */
  lemma {:induction false} FillKeepsNewest(maxElems: int, xs: seq<real>)
    requires maxElems >= 1
    ensures |Fill(maxElems, xs)| <= maxElems
    ensures Fill(maxElems, xs) == xs[|xs| - Min(|xs|, maxElems)..]
  {
    if xs != [] {
      var n := |xs|;
      var init := xs[..n - 1];
      FillKeepsNewest(maxElems, init);
      if n <= maxElems {
        assert Fill(maxElems, init) == init;
        PushBelowCapacity(maxElems, xs);
      } else {
        assert Fill(maxElems, init) == xs[n - 1 - maxElems..n - 1];
        PushAtCapacity(maxElems, xs);
      }
    }
  }

  /** With a capacity of zero or less the eviction test never holds on a
      non-empty window, so the window keeps every accepted reading. */
  lemma {:induction false} FillGrows(maxElems: int, xs: seq<real>)
    requires maxElems <= 0
    ensures Fill(maxElems, xs) == xs
  {
    if xs != [] {
      var n := |xs|;
      var init := xs[..n - 1];
      FillGrows(maxElems, init);
      assert Fill(maxElems, xs) == Pushed(init, maxElems, xs[n - 1]);
      assert Pushed(init, maxElems, xs[n - 1]) == init + [xs[n - 1]];
      assert init + [xs[n - 1]] == xs;
    }
  }
}

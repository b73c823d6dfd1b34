/**
 * The limb shape plot (ShapePlot): which bow states are drawn as grey
 * background outlines, which curve slot each one occupies, and the order in
 * which the points of a limb outline are emitted for both limb halves.
 */
module ShapePlot {

  /** size_t arithmetic is modulo 2^64. */
  const SizeModulus: int := 0x1_0000_0000_0000_0000

  /**
   * The state index drawn as background outline i of k intermediate outlines
   * when the simulation recorded n states. The product and the subtraction
   * are size_t operations, so they are taken modulo 2^64 as written.
   */
  function SampleIndex(i: int, n: nat, k: int): nat
    requires 0 <= i < k && n < SizeModulus
  {
    if k == 1 then 0
    else (i * ((n - 1) % SizeModulus)) % SizeModulus / (k - 1)
  }

  /** The sizes for which the size_t arithmetic of the sampling does not wrap. */
  ghost predicate Fits(n: nat, k: int) {
    1 <= n < SizeModulus && (k - 1) * (n - 1) < SizeModulus
  }

  lemma DivMonotone(a: int, b: int, d: int)
    requires 0 <= a <= b && d > 0
    ensures a / d <= b / d
  {
    var qa, qb := a / d, b / d;
    if qa > qb {
      MulMonotone(qb + 1, qa, d);
      assert false;
    }
  }

  lemma MulMonotone(a: int, b: int, c: int)
    requires 0 <= a <= b && c >= 0
    ensures a * c <= b * c
  {
  }

  lemma MulDivCancel(a: int, d: int)
    requires d > 0
    ensures (d * a) / d == a
  {
    var q, r := (d * a) / d, (d * a) % d;
    assert d * a == d * q + r && 0 <= r < d;
    assert d * (a - q) == r;
    if a - q >= 1 {
      MulMonotone(1, a - q, d);
      assert false;
    } else if a - q <= -1 {
      MulMonotone(1, q - a, d);
      assert false;
    }
  }

  /** Without wrap-around the sample is the exact floor of i*(n-1)/(k-1). */
  lemma SampleIsExact(i: int, n: nat, k: int)
    requires 0 <= i < k && Fits(n, k) && k > 1
    ensures SampleIndex(i, n, k) == i * (n - 1) / (k - 1)
    ensures i * (n - 1) <= (k - 1) * (n - 1)
  {
    var m := n - 1;
    assert m % SizeModulus == m;
    MulMonotone(i, k - 1, m);
    var p := i * m;
    assert 0 <= p < SizeModulus;
    assert p % SizeModulus == p;
  }

  /** Every sampled index is a recorded state. */
  lemma SampleInRange(i: int, n: nat, k: int)
    requires 0 <= i < k && 1 <= n < SizeModulus
    ensures SampleIndex(i, n, k) <= n - 1
  {
    if k > 1 {
      // The wrapped product never exceeds (k-1)*(n-1): either nothing
      // wrapped, or (k-1)*(n-1) is already at least the modulus.
      var w := (i * ((n - 1) % SizeModulus)) % SizeModulus;
      assert (n - 1) % SizeModulus == n - 1;
      MulMonotone(i, k - 1, n - 1);
      if i * (n - 1) < SizeModulus {
        assert w == i * (n - 1);
      } else {
        assert w < SizeModulus;
      }
      DivMonotone(w, (k - 1) * (n - 1), k - 1);
      MulDivCancel(n - 1, k - 1);
    }
  }

  /**
   * Without the Fits bound the product wraps: with n = 2^34 + 1 recorded
   * states and k = 2^30 + 1 intermediate outlines (background states minus
   * the unbraced one, a count an `int` holds), the last sample is state 0
   * and not the full-draw state n - 1.
   */
  lemma SampleWrapsWhenProductOverflows()
    ensures var n, k := 0x4_0000_0001, 0x4000_0001;
      k <= 0x7FFF_FFFF && !Fits(n, k) && SampleIndex(k - 1, n, k) == 0
  {
    var n, k := 0x4_0000_0001, 0x4000_0001;
    assert (k - 1) * (n - 1) == SizeModulus;
    assert ((k - 1) * ((n - 1) % SizeModulus)) % SizeModulus == 0;
  }

  /**
   * The first outline is the braced state; the last is the full-draw state
   * unless there is only one outline, which is then the braced state.
   */
  lemma SampleEnds(n: nat, k: int)
    requires k >= 1 && Fits(n, k)
    ensures SampleIndex(0, n, k) == 0
    ensures k > 1 ==> SampleIndex(k - 1, n, k) == n - 1
  {
    if k > 1 {
      SampleIsExact(0, n, k);
      SampleIsExact(k - 1, n, k);
      MulDivCancel(n - 1, k - 1);
    }
  }

  /** Later outlines show later (or the same) states. */
  lemma SampleMonotone(i: int, i': int, n: nat, k: int)
    requires 0 <= i <= i' < k && Fits(n, k)
    ensures SampleIndex(i, n, k) <= SampleIndex(i', n, k)
  {
    if k > 1 {
      SampleIsExact(i, n, k);
      SampleIsExact(i', n, k);
      MulMonotone(i, i', n - 1);
      DivMonotone(i * (n - 1), i' * (n - 1), k - 1);
    }
  }

  // ---------------------------------------------------------------------
  // Curve slots
  // ---------------------------------------------------------------------

  /** Curves per list: one per background state and one for the current state. */
  function SlotCount(backgroundStates: int): (count: nat)
    ensures count >= 1
    ensures backgroundStates >= 0 ==> count == backgroundStates + 1
    ensures backgroundStates < 0 ==> count == 1
  {
    (if backgroundStates > 0 then backgroundStates else 0) + 1
  }

  /** The current state is drawn into the last slot (back()). */
  function CurrentSlot(backgroundStates: int): (slot: nat)
    ensures backgroundStates >= 0 ==> slot == backgroundStates
    ensures backgroundStates < 0 ==> slot == 0
  {
    SlotCount(backgroundStates) - 1
  }

  /** What a background slot shows: a recorded bow state or the unbraced limb. */
  datatype Outline = StateAt(j: nat) | Unbraced

  /**
   * The outlines updateBackgroundStates draws, by slot: the sampled states
   * first, then the unbraced limb in slot background_states - 1 when that is
   * not negative.
   */
  function BackgroundSlots(backgroundStates: int, n: nat): (slots: seq<Outline>)
    requires Fits(n, backgroundStates - 1)
    ensures |slots| == CurrentSlot(backgroundStates)
    ensures backgroundStates >= 1 ==> slots[backgroundStates - 1] == Unbraced
    ensures forall t :: 0 <= t < |slots| - 1 ==> slots[t].StateAt? && slots[t].j < n
    ensures forall t, u :: 0 <= t <= u < |slots| - 1 ==> slots[t].j <= slots[u].j
    ensures |slots| >= 2 ==> slots[0] == StateAt(0)
    ensures |slots| >= 3 ==> slots[|slots| - 2] == StateAt(n - 1)
  {
    var k := backgroundStates - 1;
    var count := if backgroundStates > 0 then backgroundStates else 0;
    var slots := seq(count, t requires 0 <= t < count =>
      if t == k then Unbraced else StateAt(SampleIndex(t, n, k)));
    assert forall t :: 0 <= t < count - 1 ==> slots[t] == StateAt(SampleIndex(t, n, k));
    assert forall t :: 0 <= t < count - 1 ==> slots[t].j < n by {
      forall t | 0 <= t < count - 1
        ensures slots[t].j < n
      {
        SampleInRange(t, n, k);
      }
    }
    assert forall t, u :: 0 <= t <= u < count - 1 ==> slots[t].j <= slots[u].j by {
      forall t, u | 0 <= t <= u < count - 1
        ensures slots[t].j <= slots[u].j
      {
        SampleMonotone(t, u, n, k);
      }
    }
    assert count >= 2 ==> SampleIndex(0, n, k) == 0 && (k > 1 ==> SampleIndex(k - 1, n, k) == n - 1) by {
      if count >= 2 {
        SampleEnds(n, k);
      }
    }
    slots
  }

  // ---------------------------------------------------------------------
  // Limb outline
  // ---------------------------------------------------------------------

  type Point2 = (real, real)

  function Reverse<T>(s: seq<T>): (r: seq<T>)
    ensures |r| == |s| && forall i :: 0 <= i < |s| ==> r[i] == s[|s| - 1 - i]
  {
    seq(|s|, i requires 0 <= i < |s| => s[|s| - 1 - i])
  }

  /** The back of the limb: the node positions. */
  function BackLine(x: seq<real>, y: seq<real>, n: nat): (line: seq<Point2>)
    requires |x| >= n && |y| >= n
    ensures |line| == n && forall i :: 0 <= i < n ==> line[i] == (x[i], y[i])
  {
    seq(n, i requires 0 <= i < n => (x[i], y[i]))
  }

  /** The belly of the limb: each node offset by the local height across the limb. */
  function BellyLine(x: seq<real>, y: seq<real>, phi: seq<real>, height: seq<real>,
                     sin: real -> real, cos: real -> real): (line: seq<Point2>)
    requires |x| >= |phi| && |y| >= |phi| && |height| >= |phi|
    ensures |line| == |phi|
    ensures forall i :: 0 <= i < |phi| ==>
      line[i] == (x[i] + height[i] * sin(phi[i]), y[i] - height[i] * cos(phi[i]))
  {
    seq(|phi|, i requires 0 <= i < |phi| => BellyPoint(x, y, phi, height, sin, cos, i))
  }

  function BellyPoint(x: seq<real>, y: seq<real>, phi: seq<real>, height: seq<real>,
                      sin: real -> real, cos: real -> real, i: nat): Point2
    requires i < |phi| && |x| >= |phi| && |y| >= |phi| && |height| >= |phi|
  {
    (x[i] + height[i] * sin(phi[i]), y[i] - height[i] * cos(phi[i]))
  }

  function ToScreen(unit: real -> real, p: Point2): Point2 {
    (unit(p.0), unit(p.1))
  }

  /** The left limb half is the right one reflected in the y axis. */
  function Mirror(p: Point2): Point2 {
    (-p.0, p.1)
  }

  /** The first loop of plotLimbOutline: forward along the back, node 0 first. */
  method BackPass(x: seq<real>, y: seq<real>, n: nat, unit: real -> real)
    returns (left: seq<Point2>, right: seq<Point2>)
    requires |x| >= n && |y| >= n
    ensures |left| == n && |right| == n
    ensures forall t :: 0 <= t < n ==> right[t] == ToScreen(unit, (x[t], y[t]))
    ensures forall t :: 0 <= t < n ==> left[t] == ToScreen(unit, Mirror((x[t], y[t])))
  {
    left, right := [], [];
    var i := 0;
    while i < n
      invariant 0 <= i <= n && |left| == i && |right| == i
      invariant forall t :: 0 <= t < i ==> right[t] == ToScreen(unit, (x[t], y[t]))
      invariant forall t :: 0 <= t < i ==> left[t] == ToScreen(unit, Mirror((x[t], y[t])))
    {
      var xi := x[i];
      var yi := y[i];
      left := left + [(unit(-xi), unit(yi))];
      right := right + [(unit(xi), unit(yi))];
      i := i + 1;
    }
  }

  /** The second loop of plotLimbOutline: backward along the belly, last node first. */
  method BellyPass(x: seq<real>, y: seq<real>, phi: seq<real>, height: seq<real>,
                   sin: real -> real, cos: real -> real, unit: real -> real)
    returns (left: seq<Point2>, right: seq<Point2>)
    requires |x| >= |phi| && |y| >= |phi| && |height| >= |phi|
    ensures |left| == |phi| && |right| == |phi|
    ensures forall m :: 0 <= m < |phi| ==>
      right[m] == ToScreen(unit, BellyPoint(x, y, phi, height, sin, cos, |phi| - 1 - m))
    ensures forall m :: 0 <= m < |phi| ==>
      left[m] == ToScreen(unit, Mirror(BellyPoint(x, y, phi, height, sin, cos, |phi| - 1 - m)))
  {
    var n := |phi|;
    left, right := [], [];
    var j := n - 1;
    while j >= 0
      invariant -1 <= j <= n - 1 && |left| == n - 1 - j && |right| == n - 1 - j
      invariant forall m :: 0 <= m < |right| ==>
        right[m] == ToScreen(unit, BellyPoint(x, y, phi, height, sin, cos, n - 1 - m))
      invariant forall m :: 0 <= m < |left| ==>
        left[m] == ToScreen(unit, Mirror(BellyPoint(x, y, phi, height, sin, cos, n - 1 - m)))
    {
      var xi := x[j] + height[j] * sin(phi[j]);
      var yi := y[j] - height[j] * cos(phi[j]);
      assert BellyPoint(x, y, phi, height, sin, cos, n - 1 - |right|) == (xi, yi);
      left := left + [(unit(-xi), unit(yi))];
      right := right + [(unit(xi), unit(yi))];
      j := j - 1;
    }
  }

  /**
   * plotLimbOutline: the outline of one limb half runs along the back from
   * the first node to the last and returns along the belly. The right half
   * shows these points, the left half the same points reflected; unit is the
   * display-unit conversion.
   */
  method LimbOutline(x: seq<real>, y: seq<real>, phi: seq<real>, height: seq<real>,
                     sin: real -> real, cos: real -> real, unit: real -> real)
    returns (left: seq<Point2>, right: seq<Point2>)
    requires |x| >= |phi| && |y| >= |phi| && |height| >= |phi|
    ensures var outline := BackLine(x, y, |phi|) + Reverse(BellyLine(x, y, phi, height, sin, cos));
      && |right| == |outline| == 2 * |phi| && |left| == |outline|
      && (forall t :: 0 <= t < |outline| ==> right[t] == ToScreen(unit, outline[t]))
      && (forall t :: 0 <= t < |outline| ==> left[t] == ToScreen(unit, Mirror(outline[t])))
  {
    var n := |phi|;
    var backLeft, backRight := BackPass(x, y, n, unit);
    var bellyLeft, bellyRight := BellyPass(x, y, phi, height, sin, cos, unit);
    left, right := backLeft + bellyLeft, backRight + bellyRight;
    ghost var outline := BackLine(x, y, n) + Reverse(BellyLine(x, y, phi, height, sin, cos));
    assert forall t :: n <= t < 2 * n ==> outline[t] == BellyPoint(x, y, phi, height, sin, cos, n - 1 - (t - n));
  }

  /**
   * The outline closes on itself: position t on the way out and position
   * 2n-1-t on the way back belong to the same node t, first its back point
   * and then its belly point.
   */
  lemma OutlinePairsNodes(x: seq<real>, y: seq<real>, phi: seq<real>, height: seq<real>,
                          sin: real -> real, cos: real -> real, t: nat)
    requires |x| >= |phi| && |y| >= |phi| && |height| >= |phi|
    requires t < |phi|
    ensures var outline := BackLine(x, y, |phi|) + Reverse(BellyLine(x, y, phi, height, sin, cos));
      && outline[t] == (x[t], y[t])
      && outline[2 * |phi| - 1 - t] == (x[t] + height[t] * sin(phi[t]), y[t] - height[t] * cos(phi[t]))
  {
  }
}

/** The line fit of `tools/pace_audit.py`, over exact reals. */
module LeastSquares {
  import opened Sums

  function Mean(xs: seq<real>): real
    requires xs != []
  {
    Sum(xs) / |xs| as real
  }

  /** A product. Proofs hide its body where they only move terms about. */
  function Times(u: real, v: real): real {
    u * v
  }

  /** The sum of (x - a) * (y - b) over the points. */
  function Cross(xs: seq<real>, ys: seq<real>, a: real, b: real): real
    requires |xs| == |ys|
  {
    if xs == [] then 0.0
    else
      var n := |xs| - 1;
      Cross(xs[..n], ys[..n], a, b) + Times(xs[n] - a, ys[n] - b)
  }

  /** The sum of squared errors of the line `fixed + slope * x`. */
  function Errors(xs: seq<real>, ys: seq<real>, fixed: real, slope: real): real
    requires |xs| == |ys|
  {
    if xs == [] then 0.0
    else
      var n := |xs| - 1;
      var miss := ys[n] - fixed - Times(slope, xs[n]);
      Errors(xs[..n], ys[..n], fixed, slope) + Times(miss, miss)
  }

  /** The printed intercept and slope. */
  function Fit(xs: seq<real>, ys: seq<real>): (real, real)
    requires |xs| == |ys| && xs != []
  {
    var mx, my := Mean(xs), Mean(ys);
    var sxx := Cross(xs, xs, mx, mx);
    var slope := if sxx != 0.0 then Cross(xs, ys, mx, my) / sxx else 0.0;
    (my - Times(slope, mx), slope)
  }

  // ---------------------------------------------------------------------
  // Errors around a centre
  // ---------------------------------------------------------------------

  /** A line's errors in terms of the deviations' squares and products
      (`vv`, `uv`, `uu`), their sums (`v`, `u`), and the line's height above
      the centre. */
  function Split(vv: real, uv: real, uu: real, v: real, u: real, n: real, slope: real, shift: real): real {
    vv - 2.0 * slope * uv + slope * slope * uu + 2.0 * shift * v - 2.0 * shift * slope * u + n * shift * shift
  }

  lemma SplitOneMore(vv: real, uv: real, uu: real, sv: real, su: real, n: real, u: real, v: real, slope: real,
                     shift: real)
    ensures var miss := v - Times(slope, u) + shift;
            Split(vv, uv, uu, sv, su, n, slope, shift) + Times(miss, miss) ==
            Split(vv + Times(v, v), uv + Times(u, v), uu + Times(u, u), sv + v, su + u, n + 1.0, slope, shift)
  {
  }

  /** Sum of deviations from a centre. */
  function Excess(xs: seq<real>, a: real): real {
    Sum(xs) - |xs| as real * a
  }

  lemma ExcessOneMore(xs: seq<real>, a: real)
    requires xs != []
    ensures Excess(xs, a) == Excess(xs[..|xs| - 1], a) + (xs[|xs| - 1] - a)
  {
    assert |xs| as real == (|xs| - 1) as real + 1.0;
  }

  lemma Recentred(x: real, y: real, fixed: real, slope: real, a: real, b: real)
    ensures y - fixed - Times(slope, x) == (y - b) - Times(slope, x - a) + (b - fixed - Times(slope, a))
  {
  }

  /** The errors of any line, split around any centre. */
  lemma {:induction false} ErrorsAround(xs: seq<real>, ys: seq<real>, fixed: real, slope: real, a: real, b: real)
    requires |xs| == |ys|
    ensures Errors(xs, ys, fixed, slope) ==
            Split(Cross(ys, ys, b, b), Cross(xs, ys, a, b), Cross(xs, xs, a, a), Excess(ys, b), Excess(xs, a),
                  |xs| as real, slope, b - fixed - Times(slope, a))
  {
    if xs != [] {
      hide Times, Split, Excess, Sum;
      var n := |xs| - 1;
      var shift := b - fixed - Times(slope, a);
      ErrorsAround(xs[..n], ys[..n], fixed, slope, a, b);
      Recentred(xs[n], ys[n], fixed, slope, a, b);
      ExcessOneMore(xs, a);
      ExcessOneMore(ys, b);
      SplitOneMore(Cross(ys[..n], ys[..n], b, b), Cross(xs[..n], ys[..n], a, b), Cross(xs[..n], xs[..n], a, a),
                   Excess(ys[..n], b), Excess(xs[..n], a), n as real, xs[n] - a, ys[n] - b, slope, shift);
      assert |xs| as real == n as real + 1.0;
    }
  }

  // ---------------------------------------------------------------------
  // Signs
  // ---------------------------------------------------------------------

  lemma Positive(u: real, v: real)
    requires u > 0.0 && v > 0.0
    ensures Times(u, v) > 0.0
  {
  }

  lemma Opposites(u: real)
    ensures Times(-u, -u) == Times(u, u)
  {
  }

  lemma Square(u: real)
    ensures Times(u, u) >= 0.0
    ensures Times(u, u) == 0.0 ==> u == 0.0
  {
    if u == 0.0 {
    } else {
      hide Times;
      if u > 0.0 {
        Positive(u, u);
      } else {
        Positive(-u, -u);
        Opposites(u);
      }
    }
  }

  lemma Scaled(s: real, weight: real)
    requires s >= 0.0 && weight >= 0.0
    ensures Times(s, weight) >= 0.0
    ensures weight > 0.0 && Times(s, weight) == 0.0 ==> s == 0.0
  {
    if weight > 0.0 && s > 0.0 {
      hide Times;
      Positive(s, weight);
    }
  }

  lemma {:induction false} SpreadNonNegative(xs: seq<real>, a: real)
    ensures Cross(xs, xs, a, a) >= 0.0
    ensures Cross(xs, xs, a, a) == 0.0 ==> forall k :: 0 <= k < |xs| ==> xs[k] == a
  {
    hide Times;
    if xs != [] {
      var n := |xs| - 1;
      SpreadNonNegative(xs[..n], a);
      Square(xs[n] - a);
    }
  }

  lemma {:induction false} NoSpreadNoCross(xs: seq<real>, ys: seq<real>, a: real, b: real)
    requires |xs| == |ys| && forall k :: 0 <= k < |xs| ==> xs[k] == a
    ensures Cross(xs, ys, a, b) == 0.0
  {
    if xs != [] {
      NoSpreadNoCross(xs[..|xs| - 1], ys[..|ys| - 1], a, b);
    }
  }

  // ---------------------------------------------------------------------
  // Around the means
  // ---------------------------------------------------------------------

  lemma MeanCentres(xs: seq<real>)
    requires xs != []
    ensures Excess(xs, Mean(xs)) == 0.0
  {
  }

  lemma AtMeans(vv: real, sxx: real, n: real, slope: real, best: real, shift: real)
    ensures var tilt := slope - best;
            Split(vv, Times(best, sxx), sxx, 0.0, 0.0, n, slope, shift) ==
            vv - Times(Times(best, best), sxx) + Times(Times(tilt, tilt), sxx) + Times(Times(shift, shift), n)
  {
  }

  lemma Quotient(a: real, b: real)
    requires b != 0.0
    ensures a == Times(a / b, b)
  {
  }

  /** The fit's slope times the spread is the cross product, with or without
      spread. */
  lemma SlopeTimesSpread(xs: seq<real>, ys: seq<real>)
    requires |xs| == |ys| && xs != []
    ensures Cross(xs, ys, Mean(xs), Mean(ys)) == Times(Fit(xs, ys).1, Cross(xs, xs, Mean(xs), Mean(xs)))
    ensures Cross(xs, xs, Mean(xs), Mean(xs)) == 0.0 ==> Fit(xs, ys).1 == 0.0
  {
    hide Mean, Cross;
    var mx := Mean(xs);
    var sxx, sxy := Cross(xs, xs, mx, mx), Cross(xs, ys, mx, Mean(ys));
    if sxx == 0.0 {
      SpreadNonNegative(xs, mx);
      NoSpreadNoCross(xs, ys, mx, Mean(ys));
    } else {
      Quotient(sxy, sxx);
    }
  }

  /** Around the means, a line's errors are what no line avoids, plus squares
      of its distance from the fit in slope and in height. */
  lemma ErrorsAboutFit(xs: seq<real>, ys: seq<real>, fixed: real, slope: real)
    requires |xs| == |ys| && xs != []
    ensures var sxx := Cross(xs, xs, Mean(xs), Mean(xs));
            var best := Fit(xs, ys).1;
            var tilt, shift := slope - best, Mean(ys) - fixed - Times(slope, Mean(xs));
            Errors(xs, ys, fixed, slope) ==
            Cross(ys, ys, Mean(ys), Mean(ys)) - Times(Times(best, best), sxx)
            + Times(Times(tilt, tilt), sxx) + Times(Times(shift, shift), |xs| as real)
  {
    hide *;
    var mx, my := Mean(xs), Mean(ys);
    ErrorsAround(xs, ys, fixed, slope, mx, my);
    MeanCentres(xs);
    MeanCentres(ys);
    SlopeTimesSpread(xs, ys);
    AtMeans(Cross(ys, ys, my, my), Cross(xs, xs, mx, mx), |xs| as real, slope, Fit(xs, ys).1,
            my - fixed - Times(slope, mx));
  }

  lemma FitPassesMeans(xs: seq<real>, ys: seq<real>)
    requires |xs| == |ys| && xs != []
    ensures var (fixed, slope) := Fit(xs, ys); fixed == Mean(ys) - Times(slope, Mean(xs))
  {
  }

  lemma NothingSquared(weight: real)
    ensures Times(Times(0.0, 0.0), weight) == 0.0
  {
  }

  /** The printed line has the least squared error of all lines; when the
      sizes are not all one, it is the only one that has. */
  lemma FitIsBest(xs: seq<real>, ys: seq<real>, fixed: real, slope: real)
    requires |xs| == |ys| && xs != []
    ensures var (f, s) := Fit(xs, ys);
            var spread := exists k :: 0 <= k < |xs| && xs[k] != xs[0];
            && Errors(xs, ys, f, s) <= Errors(xs, ys, fixed, slope)
            && (spread && Errors(xs, ys, f, s) == Errors(xs, ys, fixed, slope) ==> fixed == f && slope == s)
  {
    hide *;
    var (f, s) := Fit(xs, ys);
    var mx, my := Mean(xs), Mean(ys);
    var sxx, n := Cross(xs, xs, mx, mx), |xs| as real;
    var tilt, shift := slope - s, my - fixed - Times(slope, mx);
    ErrorsAboutFit(xs, ys, f, s);
    ErrorsAboutFit(xs, ys, fixed, slope);
    FitPassesMeans(xs, ys);
    NothingSquared(sxx);
    NothingSquared(n);
    SpreadNonNegative(xs, mx);
    Square(tilt);
    Square(shift);
    Scaled(Times(tilt, tilt), sxx);
    Scaled(Times(shift, shift), n);
  }
}

/** What the layout engine guarantees: which gap each policy picks, when it
    fails, that the composed image is exactly as wide as requested, and where
    every glyph, gap and margin ends up in it. */
module LayoutProperties {
  import opened Common
  import opened Rasters
  import opened Layout

  /** The equalized choice, stated over the candidate gaps themselves: it fails
      exactly when no candidate leaves room; `EQUALIZED_MAX` leaves the least
      slack of all feasible candidates, the other equalized mode the most, and
      no smaller candidate leaves the same slack. */
  lemma EqualizedChoiceSpec(width: int, minRequired: int, n: nat, smin: int, smax: int, mode: string)
    requires n >= 1
    ensures var c := EqualizedChoice(width, minRequired, n, smin, smax, mode);
      c.None? <==> forall g :: smin <= g <= smax ==> Slack(width, minRequired, n, g) < 0
    ensures var c := EqualizedChoice(width, minRequired, n, smin, smax, mode);
      c.Some? && mode == "EQUALIZED_MAX" ==>
        forall g :: smin <= g <= smax && Slack(width, minRequired, n, g) >= 0 ==> c.value.1 <= Slack(width, minRequired, n, g)
    ensures var c := EqualizedChoice(width, minRequired, n, smin, smax, mode);
      c.Some? && mode != "EQUALIZED_MAX" ==>
        forall g :: smin <= g <= smax && Slack(width, minRequired, n, g) >= 0 ==> c.value.1 >= Slack(width, minRequired, n, g)
    ensures var c := EqualizedChoice(width, minRequired, n, smin, smax, mode);
      c.Some? ==> forall g :: smin <= g < c.value.0 ==> Slack(width, minRequired, n, g) != c.value.1
  {
    var slacks := Slacks(width, minRequired, n, GapRange(smin, smax));
    var feasible := NonNegative(slacks);
    FeasibleSlacks(width, minRequired, n, smin, smax);
    if |feasible| > 0 {
      var best := if mode == "EQUALIZED_MAX" then Least(feasible) else Greatest(feasible);
      FirstBest(width, minRequired, n, smin, smax, best);
    }
  }

  /** The slack of every candidate gap is in the list of slacks, and the
      non-negative ones are exactly the feasible slacks. */
  lemma FeasibleSlacks(width: int, minRequired: int, n: nat, smin: int, smax: int)
    ensures var slacks := Slacks(width, minRequired, n, GapRange(smin, smax));
      forall g :: smin <= g <= smax ==>
        (Slack(width, minRequired, n, g) >= 0 <==> Slack(width, minRequired, n, g) in NonNegative(slacks))
    ensures var slacks := Slacks(width, minRequired, n, GapRange(smin, smax));
      |NonNegative(slacks)| == 0 <==> forall g :: smin <= g <= smax ==> Slack(width, minRequired, n, g) < 0
  {
    var slacks := Slacks(width, minRequired, n, GapRange(smin, smax));
    var feasible := NonNegative(slacks);
    forall g | smin <= g <= smax
      ensures Slack(width, minRequired, n, g) in slacks
    {
      assert slacks[g - smin] == Slack(width, minRequired, n, g);
    }
    if |feasible| > 0 {
      var x := feasible[0];
      assert x in slacks;
      var k :| 0 <= k < |slacks| && slacks[k] == x;
      assert Slack(width, minRequired, n, smin + k) >= 0;
    }
  }

  /** The gap `FirstIndex` picks for a slack value is the smallest gap leaving it. */
  lemma FirstBest(width: int, minRequired: int, n: nat, smin: int, smax: int, best: int)
    requires best in Slacks(width, minRequired, n, GapRange(smin, smax))
    ensures var slacks := Slacks(width, minRequired, n, GapRange(smin, smax));
      var k := FirstIndex(slacks, best);
      && GapRange(smin, smax)[k] == smin + k
      && forall g :: smin <= g < smin + k ==> Slack(width, minRequired, n, g) != best
  {
    var slacks := Slacks(width, minRequired, n, GapRange(smin, smax));
    var k := FirstIndex(slacks, best);
    forall g | smin <= g < smin + k
      ensures Slack(width, minRequired, n, g) != best
    {
      assert slacks[g - smin] != best;
    }
  }

  lemma MulStrict(a: int, b: int, m: int)
    requires a < b && m > 0
    ensures m * a < m * b
  {
  }

  /** For the same inputs, `EQUALIZED_MAX` succeeds exactly when `EQUALIZED_MIN`
      does, and its gap is never smaller. */
  lemma EqualizedMaxAtLeastMin(width: int, minRequired: int, n: nat, smin: int, smax: int)
    requires n >= 1
    ensures EqualizedChoice(width, minRequired, n, smin, smax, "EQUALIZED_MAX").Some?
        <==> EqualizedChoice(width, minRequired, n, smin, smax, "EQUALIZED_MIN").Some?
    ensures EqualizedChoice(width, minRequired, n, smin, smax, "EQUALIZED_MAX").Some? ==>
      EqualizedChoice(width, minRequired, n, smin, smax, "EQUALIZED_MAX").value.0
        >= EqualizedChoice(width, minRequired, n, smin, smax, "EQUALIZED_MIN").value.0
  {
    var hi := EqualizedChoice(width, minRequired, n, smin, smax, "EQUALIZED_MAX");
    var lo := EqualizedChoice(width, minRequired, n, smin, smax, "EQUALIZED_MIN");
    EqualizedChoiceSpec(width, minRequired, n, smin, smax, "EQUALIZED_MAX");
    EqualizedChoiceSpec(width, minRequired, n, smin, smax, "EQUALIZED_MIN");
    if hi.Some? && lo.Some? {
      ChoiceOrder(width, minRequired, n, smin, hi.value.0, hi.value.1, lo.value.0, lo.value.1);
    }
  }

  /** A gap leaving the least slack is at least as wide as the first gap
      leaving some feasible slack: slack only shrinks as the gap grows. */
  lemma ChoiceOrder(width: int, minRequired: int, n: nat, smin: int, gHi: int, sHi: int, gLo: int, sLo: int)
    requires n >= 1 && smin <= gHi && smin <= gLo
    requires sHi == Slack(width, minRequired, n, gHi) && sLo == Slack(width, minRequired, n, gLo) >= 0
    requires sHi <= sLo
    requires forall g :: smin <= g < gHi ==> Slack(width, minRequired, n, g) != sHi
    requires forall g :: smin <= g < gLo ==> Slack(width, minRequired, n, g) != sLo
    ensures gHi >= gLo
  {
    if n == 1 {
      // every candidate leaves the same slack, so both are the first one
      assert Slack(width, minRequired, n, smin) == sHi;
      assert Slack(width, minRequired, n, smin) == sLo;
    } else if gHi < gLo {
      MulStrict(gHi, gLo, n - 1);
    }
  }

  /** The width check comes first: the engine reports glyphs wider than the
      canvas exactly when they are, whatever the spacing. */
  lemma WidthCheckFirst<P>(glyphs: seq<Raster<P>>, width: int, smin: int, smax: int, mode: string, bg: P)
    requires Joinable(glyphs) && smin >= 0
    ensures MinRequiredWidth(glyphs) > width
        <==> Generate(glyphs, width, smin, smax, mode, bg) == Err(WidthTooSmall(width, MinRequiredWidth(glyphs)))
  {
  }

  /** Equalized mode: the engine fails exactly when no gap in the range fits;
      on success every drawn gap is the chosen `g`, and `g` is reported once per glyph. */
  lemma EqualizedOutcome<P>(glyphs: seq<Raster<P>>, width: int, smin: int, smax: int, mode: string, bg: P)
    requires Joinable(glyphs) && smin >= 0 && IsEqualizedMode(mode)
    requires MinRequiredWidth(glyphs) <= width
    ensures Generate(glyphs, width, smin, smax, mode, bg).Err? <==>
      forall g :: smin <= g <= smax ==> Slack(width, MinRequiredWidth(glyphs), |glyphs|, g) < 0
    ensures Generate(glyphs, width, smin, smax, mode, bg).Ok? ==>
      var g := EqualizedChoice(width, MinRequiredWidth(glyphs), |glyphs|, smin, smax, mode).value.0;
      && PlanFor(glyphs, width, smin, smax, mode).value.gaps == Repeat(g, |glyphs| - 1)
      && Generate(glyphs, width, smin, smax, mode, bg).value.1.betweenMargins == Repeat(g, |glyphs|)
  {
    EqualizedChoiceSpec(width, MinRequiredWidth(glyphs), |glyphs|, smin, smax, mode);
  }

  /** Progressive mode: the drawn gaps are `smin, smin + 1, ...` in order, as
      many as the range holds up to one per glyph boundary; the engine fails
      when they do not fit or when the range holds too few of them, and
      otherwise reports exactly the gaps it drew. */
  lemma ProgressiveOutcome<P>(glyphs: seq<Raster<P>>, width: int, smin: int, smax: int, mode: string, bg: P)
    requires Joinable(glyphs) && smin >= 0 && !IsEqualizedMode(mode)
    requires MinRequiredWidth(glyphs) <= width
    ensures var gaps := ProgressiveGaps(|glyphs|, smin, smax);
      && |gaps| == (if |GapRange(smin, smax)| < |glyphs| - 1 then |GapRange(smin, smax)| else |glyphs| - 1)
      && (forall i :: 0 <= i < |gaps| ==> gaps[i] == smin + i)
    ensures var gaps := ProgressiveGaps(|glyphs|, smin, smax);
      Generate(glyphs, width, smin, smax, mode, bg).Err? <==>
        width - (MinRequiredWidth(glyphs) + Sum(gaps)) < 0 || |GapRange(smin, smax)| < |glyphs| - 1
    ensures Generate(glyphs, width, smin, smax, mode, bg).Ok? ==>
      Generate(glyphs, width, smin, smax, mode, bg).value.1.betweenMargins == ProgressiveGaps(|glyphs|, smin, smax)
  {
  }

  /** Sum of the widths of all glyphs and all gaps between them. */
  lemma StripWidth<P>(glyphs: seq<Raster<P>>, gaps: seq<nat>)
    requires Joinable(glyphs) && |gaps| == |glyphs| - 1
    ensures Offset(glyphs, gaps, |glyphs| - 1) + glyphs[|glyphs| - 1].cols == MinRequiredWidth(glyphs) + Sum(gaps)
  {
    var n := |glyphs|;
    SumPrefixStep(Widths(glyphs), n - 1);
    assert Widths(glyphs)[..n] == Widths(glyphs);
    assert gaps[..n - 1] == gaps;
  }

  /** The exact-sum invariant and the reported metadata: on success the image
      is as wide as requested, the margins, glyph widths and drawn gaps add up
      to that width, the margins differ by at most one column (the right one
      being the larger), and the reported size is (glyph height, width). */
  lemma GenerateExactWidth<P>(glyphs: seq<Raster<P>>, width: int, smin: int, smax: int, mode: string, bg: P)
    requires Joinable(glyphs) && smin >= 0
    requires Generate(glyphs, width, smin, smax, mode, bg).Ok?
    ensures var (img, info) := Generate(glyphs, width, smin, smax, mode, bg).value;
      var p := PlanFor(glyphs, width, smin, smax, mode).value;
      && |p.gaps| == |glyphs| - 1
      && img.Wf() && img.rows == glyphs[0].rows && img.cols == width
      && info.fullImageSize == (glyphs[0].rows, width)
      && info.leftMargin + MinRequiredWidth(glyphs) + Sum(p.gaps) + info.rightMargin == width
      && 0 <= info.rightMargin - info.leftMargin <= 1
      && info.numberOfLabels == |glyphs|
  {
    var p := PlanFor(glyphs, width, smin, smax, mode).value;
    StripWidth(glyphs, p.gaps);
  }

  /** Column `x`, counted from the left edge of the joined glyphs, lies inside
      one of the first `k` glyphs. */
  ghost predicate Covered<P>(glyphs: seq<Raster<P>>, gaps: seq<nat>, k: nat, x: int)
    requires k <= |glyphs| && k <= |gaps| + 1
  {
    exists i :: 0 <= i < k && Offset(glyphs, gaps, i) <= x < Offset(glyphs, gaps, i) + glyphs[i].cols
  }

  /** Glyph `g` appears in `img` with its left column at column `at`. */
  ghost predicate Shows<P>(img: Raster<P>, g: Raster<P>, at: int)
  {
    && img.Wf() && g.Wf() && g.rows <= img.rows && 0 <= at && at + g.cols <= img.cols
    && forall r, c :: 0 <= r < g.rows && 0 <= c < g.cols ==> img.px[r][at + c] == g.px[r][c]
  }

  /** `img` shows the first `k` glyphs left to right starting at column `left`,
      glyph `i` at `left + Offset(i)`, and every other column is background. */
  ghost predicate Arranged<P>(img: Raster<P>, glyphs: seq<Raster<P>>, gaps: seq<nat>, k: nat, left: nat, bg: P)
    requires Joinable(glyphs) && 1 <= k <= |glyphs| && k - 1 <= |gaps|
  {
    && img.Wf() && img.rows == glyphs[0].rows
    && (forall i :: 0 <= i < k ==> Shows(img, glyphs[i], left + Offset(glyphs, gaps, i)))
    && (forall r, x :: 0 <= r < img.rows && 0 <= x < img.cols ==>
          Covered(glyphs, gaps, k, x - left) || img.px[r][x] == bg)
  }

  /** One step of the joining loop, pixel by pixel: the earlier strip, then
      the gap of background, then the next glyph from `Offset(k - 1)` on. */
  lemma StripStep<P>(glyphs: seq<Raster<P>>, gaps: seq<nat>, k: nat, bg: P)
    requires Joinable(glyphs) && 2 <= k <= |glyphs| && k - 1 <= |gaps|
    ensures Offset(glyphs, gaps, k - 1) == Strip(glyphs, gaps, k - 1, bg).cols + gaps[k - 2]
    ensures forall r, x :: 0 <= r < glyphs[0].rows && 0 <= x < Strip(glyphs, gaps, k, bg).cols ==>
      Strip(glyphs, gaps, k, bg).px[r][x] ==
        if x < Strip(glyphs, gaps, k - 1, bg).cols then Strip(glyphs, gaps, k - 1, bg).px[r][x]
        else if x < Offset(glyphs, gaps, k - 1) then bg
        else glyphs[k - 1].px[r][x - Offset(glyphs, gaps, k - 1)]
  {
    var h := glyphs[0].rows;
    var prev := Strip(glyphs, gaps, k - 1, bg);
    var blank := Blank(h, gaps[k - 2], bg);
    var mid := HStack(prev, blank);
    SumPrefixStep(Widths(glyphs), k - 2);
    SumPrefixStep(gaps, k - 2);
    forall r, x | 0 <= r < h && 0 <= x < Strip(glyphs, gaps, k, bg).cols
      ensures Strip(glyphs, gaps, k, bg).px[r][x] == HStack(mid, glyphs[k - 1]).px[r][x]
    {
    }
    forall r, x | 0 <= r < h && 0 <= x < mid.cols + glyphs[k - 1].cols
      ensures HStack(mid, glyphs[k - 1]).px[r][x] ==
        if x < prev.cols then prev.px[r][x]
        else if x < mid.cols then bg
        else glyphs[k - 1].px[r][x - mid.cols]
    {
      HStackAt(mid, glyphs[k - 1], r, x);
      if x < mid.cols {
        HStackAt(prev, blank, r, x);
      }
    }
  }

  /** A glyph shown in a strip is still shown once more columns are appended. */
  lemma ShowsExtended<P>(prev: Raster<P>, s: Raster<P>, g: Raster<P>, at: int)
    requires Shows(prev, g, at) && s.Wf() && s.rows == prev.rows && prev.cols <= s.cols
    requires forall r, x :: 0 <= r < prev.rows && 0 <= x < prev.cols ==> s.px[r][x] == prev.px[r][x]
    ensures Shows(s, g, at)
  {
    forall r, c | 0 <= r < g.rows && 0 <= c < g.cols
      ensures s.px[r][at + c] == g.px[r][c]
    {
      assert s.px[r][at + c] == prev.px[r][at + c];
    }
  }

  /** Coverage by the first `k - 1` glyphs implies coverage by the first `k`. */
  lemma CoveredMonotone<P>(glyphs: seq<Raster<P>>, gaps: seq<nat>, k: nat, x: int)
    requires 1 <= k <= |glyphs| && k <= |gaps| + 1
    requires Covered(glyphs, gaps, k - 1, x)
    ensures Covered(glyphs, gaps, k, x)
  {
    var i :| 0 <= i < k - 1 && Offset(glyphs, gaps, i) <= x < Offset(glyphs, gaps, i) + glyphs[i].cols;
    assert 0 <= i < k;
  }

  /** The last glyph of a strip sits at its offset. */
  lemma StripShowsLast<P>(glyphs: seq<Raster<P>>, gaps: seq<nat>, k: nat, bg: P)
    requires Joinable(glyphs) && 1 <= k <= |glyphs| && k - 1 <= |gaps|
    ensures Shows(Strip(glyphs, gaps, k, bg), glyphs[k - 1], Offset(glyphs, gaps, k - 1))
  {
    var s := Strip(glyphs, gaps, k, bg);
    var last := glyphs[k - 1];
    var start := Offset(glyphs, gaps, k - 1);
    if k == 1 {
      assert start == 0;
    } else {
      StripStep(glyphs, gaps, k, bg);
      forall r, c | 0 <= r < last.rows && 0 <= c < last.cols
        ensures s.px[r][start + c] == last.px[r][c]
      {
      }
    }
  }

  /** Every glyph of a strip sits at its offset. */
  lemma {:induction false} StripShows<P>(glyphs: seq<Raster<P>>, gaps: seq<nat>, k: nat, bg: P)
    requires Joinable(glyphs) && 1 <= k <= |glyphs| && k - 1 <= |gaps|
    ensures forall i :: 0 <= i < k ==> Shows(Strip(glyphs, gaps, k, bg), glyphs[i], Offset(glyphs, gaps, i))
    decreases k
  {
    StripShowsLast(glyphs, gaps, k, bg);
    if k > 1 {
      StripShows(glyphs, gaps, k - 1, bg);
      StripStep(glyphs, gaps, k, bg);
      var s := Strip(glyphs, gaps, k, bg);
      var prev := Strip(glyphs, gaps, k - 1, bg);
      forall i | 0 <= i < k - 1
        ensures Shows(s, glyphs[i], Offset(glyphs, gaps, i))
      {
        ShowsExtended(prev, s, glyphs[i], Offset(glyphs, gaps, i));
      }
    }
  }

  /** Every column of a strip outside the glyphs is background. */
  lemma {:induction false} StripBackground<P>(glyphs: seq<Raster<P>>, gaps: seq<nat>, k: nat, bg: P)
    requires Joinable(glyphs) && 1 <= k <= |glyphs| && k - 1 <= |gaps|
    ensures forall r, x :: 0 <= r < glyphs[0].rows && 0 <= x < Strip(glyphs, gaps, k, bg).cols ==>
      Covered(glyphs, gaps, k, x) || Strip(glyphs, gaps, k, bg).px[r][x] == bg
    decreases k
  {
    var s := Strip(glyphs, gaps, k, bg);
    var start := Offset(glyphs, gaps, k - 1);
    if k == 1 {
      assert start == 0;
      forall x | 0 <= x < s.cols
        ensures Covered(glyphs, gaps, 1, x)
      {
        assert start <= x < start + glyphs[0].cols;
      }
    } else {
      StripBackground(glyphs, gaps, k - 1, bg);
      StripStep(glyphs, gaps, k, bg);
      var prev := Strip(glyphs, gaps, k - 1, bg);
      forall r, x | 0 <= r < glyphs[0].rows && 0 <= x < s.cols
        ensures Covered(glyphs, gaps, k, x) || s.px[r][x] == bg
      {
        if x < prev.cols {
          if Covered(glyphs, gaps, k - 1, x) {
            CoveredMonotone(glyphs, gaps, k, x);
          }
        } else if x >= start {
          assert start <= x < start + glyphs[k - 1].cols;
        }
      }
    }
  }

  /** Where a pixel of the composed image comes from: margin, strip, margin. */
  lemma ComposePixels<P>(glyphs: seq<Raster<P>>, gaps: seq<nat>, left: nat, right: nat, bg: P)
    requires Joinable(glyphs) && |glyphs| - 1 <= |gaps|
    ensures var img := Compose(glyphs, gaps, left, right, bg);
      var s := Strip(glyphs, gaps, |glyphs|, bg);
      && img.cols == left + s.cols + right
      && forall r, x :: 0 <= r < glyphs[0].rows && 0 <= x < img.cols ==>
        img.px[r][x] == if left <= x < left + s.cols then s.px[r][x - left] else bg
  {
    var h := glyphs[0].rows;
    var s := Strip(glyphs, gaps, |glyphs|, bg);
    var lb := Blank(h, left, bg);
    var rb := Blank(h, right, bg);
    var a := HStack(lb, s);
    var img := Compose(glyphs, gaps, left, right, bg);
    assert img == HStack(a, rb);
    forall r, x | 0 <= r < h && 0 <= x < img.cols
      ensures img.px[r][x] == if left <= x < left + s.cols then s.px[r][x - left] else bg
    {
      HStackAt(a, rb, r, x);
      if x < a.cols {
        HStackAt(lb, s, r, x);
      }
    }
  }

  /** Left margin, joined glyphs, right margin: every glyph sits at its offset
      after the left margin, and every column outside the glyphs is background. */
  lemma ComposeArranged<P>(glyphs: seq<Raster<P>>, gaps: seq<nat>, left: nat, right: nat, bg: P)
    requires Joinable(glyphs) && |glyphs| - 1 <= |gaps|
    ensures Arranged(Compose(glyphs, gaps, left, right, bg), glyphs, gaps, |glyphs|, left, bg)
  {
    var n := |glyphs|;
    var s := Strip(glyphs, gaps, n, bg);
    var img := Compose(glyphs, gaps, left, right, bg);
    ComposePixels(glyphs, gaps, left, right, bg);
    ComposeShows(glyphs, gaps, left, right, bg);
    StripBackground(glyphs, gaps, n, bg);
    forall r, x | 0 <= r < img.rows && 0 <= x < img.cols
      ensures Covered(glyphs, gaps, n, x - left) || img.px[r][x] == bg
    {
      if left <= x < left + s.cols {
        assert Covered(glyphs, gaps, n, x - left) || s.px[r][x - left] == bg;
      }
    }
  }

  lemma ComposeShows<P>(glyphs: seq<Raster<P>>, gaps: seq<nat>, left: nat, right: nat, bg: P)
    requires Joinable(glyphs) && |glyphs| - 1 <= |gaps|
    ensures forall i :: 0 <= i < |glyphs| ==>
      Shows(Compose(glyphs, gaps, left, right, bg), glyphs[i], left + Offset(glyphs, gaps, i))
  {
    var s := Strip(glyphs, gaps, |glyphs|, bg);
    var img := Compose(glyphs, gaps, left, right, bg);
    ComposePixels(glyphs, gaps, left, right, bg);
    StripShows(glyphs, gaps, |glyphs|, bg);
    forall i | 0 <= i < |glyphs|
      ensures Shows(img, glyphs[i], left + Offset(glyphs, gaps, i))
    {
      ShowsShifted(s, img, glyphs[i], Offset(glyphs, gaps, i), left);
    }
  }

  /** A glyph shown in a strip is shown `left` columns further right in an
      image that holds the strip from column `left` on. */
  lemma ShowsShifted<P>(s: Raster<P>, img: Raster<P>, g: Raster<P>, at: int, left: nat)
    requires Shows(s, g, at) && img.Wf() && img.rows == s.rows && left + s.cols <= img.cols
    requires forall r, x :: 0 <= r < s.rows && left <= x < left + s.cols ==> img.px[r][x] == s.px[r][x - left]
    ensures Shows(img, g, left + at)
  {
    forall r, c | 0 <= r < g.rows && 0 <= c < g.cols
      ensures img.px[r][left + at + c] == g.px[r][c]
    {
      assert img.px[r][left + at + c] == s.px[r][at + c];
    }
  }

  /** The composition: on success each glyph appears, in input order, after the
      left margin at its offset, and every column that is not a glyph column —
      margins and gaps — is background. */
  lemma GenerateArranged<P>(glyphs: seq<Raster<P>>, width: int, smin: int, smax: int, mode: string, bg: P)
    requires Joinable(glyphs) && smin >= 0
    requires Generate(glyphs, width, smin, smax, mode, bg).Ok?
    ensures var (img, info) := Generate(glyphs, width, smin, smax, mode, bg).value;
      Arranged(img, glyphs, PlanFor(glyphs, width, smin, smax, mode).value.gaps, |glyphs|, info.leftMargin, bg)
  {
    var p := PlanFor(glyphs, width, smin, smax, mode).value;
    ComposeArranged(glyphs, p.gaps, p.left, p.right, bg);
  }

  /** Progressive feasibility boundary: a canvas exactly as wide as the glyphs
      plus the progressive gaps is filled with no margin at all; one column
      less fails. */
  lemma ProgressiveBoundary<P>(glyphs: seq<Raster<P>>, smin: int, smax: int, mode: string, bg: P)
    requires Joinable(glyphs) && smin >= 0 && !IsEqualizedMode(mode)
    requires |GapRange(smin, smax)| >= |glyphs| - 1
    ensures |ProgressiveGaps(|glyphs|, smin, smax)| == |glyphs| - 1
    ensures var width := MinRequiredWidth(glyphs) + Sum(ProgressiveGaps(|glyphs|, smin, smax));
      && Generate(glyphs, width, smin, smax, mode, bg).Ok?
      && Generate(glyphs, width, smin, smax, mode, bg).value.1.leftMargin == 0
      && Generate(glyphs, width, smin, smax, mode, bg).value.1.rightMargin == 0
      && Generate(glyphs, width - 1, smin, smax, mode, bg).Err?
  {
    SumNonNegative(ProgressiveGaps(|glyphs|, smin, smax));
  }

  /** Equalized feasibility boundary: with a canvas exactly as wide as the
      glyphs plus `n - 1` gaps of `smin`, both equalized modes draw gaps of
      `smin` and leave no margin; one column less fails. */
  lemma EqualizedBoundary<P>(glyphs: seq<Raster<P>>, width: int, smin: int, smax: int, mode: string, bg: P)
    requires Joinable(glyphs) && smin >= 0 && smin <= smax && IsEqualizedMode(mode)
    requires width == MinRequiredWidth(glyphs) + (|glyphs| - 1) * smin
    ensures PlanFor(glyphs, width, smin, smax, mode) == Ok(Plan(0, Repeat(smin, |glyphs| - 1), 0, Repeat(smin, |glyphs|)))
    ensures Generate(glyphs, width, smin, smax, mode, bg).Ok?
    ensures Generate(glyphs, width - 1, smin, smax, mode, bg).Err?
  {
    EqualizedBoundaryPlan(glyphs, width, smin, smax, mode);
    GenerateSucceeds(glyphs, width, smin, smax, mode, bg);
    GenerateSucceeds(glyphs, width - 1, smin, smax, mode, bg);
  }

  /** The plans on the tight canvas `width` and on one column less. */
  lemma EqualizedBoundaryPlan<P>(glyphs: seq<Raster<P>>, width: int, smin: int, smax: int, mode: string)
    requires Joinable(glyphs) && smin >= 0 && smin <= smax && IsEqualizedMode(mode)
    requires width == MinRequiredWidth(glyphs) + (|glyphs| - 1) * smin
    ensures PlanFor(glyphs, width, smin, smax, mode) == Ok(Plan(0, Repeat(smin, |glyphs| - 1), 0, Repeat(smin, |glyphs|)))
    ensures PlanFor(glyphs, width - 1, smin, smax, mode).Err?
  {
    TightPlanFor(glyphs, width, smin, smax, mode);
    NarrowerPlanFor(glyphs, width, smin, smax, mode);
  }

  /** On the tight canvas an equalized mode plans gaps of `smin` and no margins. */
  lemma TightPlanFor<P>(glyphs: seq<Raster<P>>, width: int, smin: int, smax: int, mode: string)
    requires Joinable(glyphs) && smin >= 0 && smin <= smax && IsEqualizedMode(mode)
    requires width == MinRequiredWidth(glyphs) + (|glyphs| - 1) * smin
    ensures PlanFor(glyphs, width, smin, smax, mode) == Ok(Plan(0, Repeat(smin, |glyphs| - 1), 0, Repeat(smin, |glyphs|)))
  {
    TightPlan(width, MinRequiredWidth(glyphs), |glyphs|, smin, smax, mode);
    RoomForGaps(|glyphs|, smin);
    PlanForEqualized(glyphs, width, smin, smax, mode);
  }

  /** One column less than the tight canvas, an equalized mode has no plan. */
  lemma NarrowerPlanFor<P>(glyphs: seq<Raster<P>>, width: int, smin: int, smax: int, mode: string)
    requires Joinable(glyphs) && smin >= 0 && smin <= smax && IsEqualizedMode(mode)
    requires width == MinRequiredWidth(glyphs) + (|glyphs| - 1) * smin
    ensures PlanFor(glyphs, width - 1, smin, smax, mode).Err?
  {
    var narrow := width - 1;
    RoomForGaps(|glyphs|, smin);
    if MinRequiredWidth(glyphs) <= narrow {
      NarrowerHasNoChoice(narrow, MinRequiredWidth(glyphs), |glyphs|, smin, smax, mode);
      PlanForEqualized(glyphs, narrow, smin, smax, mode);
    } else {
      TooNarrowForGlyphs(glyphs, narrow, smin, smax, mode);
    }
  }

  /** A canvas narrower than the glyphs themselves fails in every mode. */
  lemma TooNarrowForGlyphs<P>(glyphs: seq<Raster<P>>, width: int, smin: int, smax: int, mode: string)
    requires Joinable(glyphs) && smin >= 0 && width < MinRequiredWidth(glyphs)
    ensures PlanFor(glyphs, width, smin, smax, mode) == Err(WidthTooSmall(width, MinRequiredWidth(glyphs)))
  {
  }

  /** `n - 1` gaps of `smin` take no room, or at least a column only when
      there is a gap at all. */
  lemma RoomForGaps(n: nat, smin: int)
    requires n >= 1 && smin >= 0
    ensures (n - 1) * smin >= 0
    ensures (n - 1) * smin >= 1 ==> n > 1
  {
    MulNonNegative(n - 1, smin);
  }

  /** Once the glyphs fit, an equalized mode's plan is the equalized policy's. */
  lemma PlanForEqualized<P>(glyphs: seq<Raster<P>>, width: int, smin: int, smax: int, mode: string)
    requires Joinable(glyphs) && smin >= 0 && IsEqualizedMode(mode)
    requires MinRequiredWidth(glyphs) <= width
    ensures PlanFor(glyphs, width, smin, smax, mode) == EqualizedPlan(width, MinRequiredWidth(glyphs), |glyphs|, smin, smax, mode)
  {
  }

  lemma MulNonNegative(a: int, b: int)
    requires a >= 0 && b >= 0
    ensures a * b >= 0
  {
  }

  /** The equalized plan on a canvas that fits `n - 1` gaps of `smin`
      exactly: gaps of `smin` and no margins. */
  lemma TightPlan(width: int, m: int, n: nat, smin: int, smax: int, mode: string)
    requires n >= 1 && 0 <= smin <= smax && width == m + (n - 1) * smin
    ensures EqualizedPlan(width, m, n, smin, smax, mode) == Ok(Plan(0, Repeat(smin, n - 1), 0, Repeat(smin, n)))
  {
    TightChoiceIsNarrowest(width, m, n, smin, smax, mode);
  }

  /** On the tight canvas the narrowest gap is chosen, with no slack left. */
  lemma TightChoiceIsNarrowest(width: int, m: int, n: nat, smin: int, smax: int, mode: string)
    requires n >= 1 && 0 <= smin <= smax && width == m + (n - 1) * smin
    ensures EqualizedChoice(width, m, n, smin, smax, mode) == Some((smin, 0))
  {
    EqualizedChoiceSpec(width, m, n, smin, smax, mode);
    var c := EqualizedChoice(width, m, n, smin, smax, mode);
    assert Slack(width, m, n, smin) == 0;
    TightChoice(width, m, n, smin, c.value.0, c.value.1);
  }

  /** One column less than the tight canvas leaves every gap infeasible. */
  lemma NarrowerHasNoChoice(narrow: int, m: int, n: nat, smin: int, smax: int, mode: string)
    requires n > 1 && 0 <= smin <= smax && narrow == m + (n - 1) * smin - 1
    ensures EqualizedChoice(narrow, m, n, smin, smax, mode).None?
  {
    EqualizedChoiceSpec(narrow, m, n, smin, smax, mode);
    forall g | smin <= g <= smax
      ensures Slack(narrow, m, n, g) < 0
    {
      if smin < g {
        MulStrict(smin, g, n - 1);
      }
    }
  }

  /** The engine succeeds exactly when the plan does and supplies a gap for
      every glyph boundary. */
  lemma GenerateSucceeds<P>(glyphs: seq<Raster<P>>, width: int, smin: int, smax: int, mode: string, bg: P)
    requires Joinable(glyphs) && smin >= 0
    ensures Generate(glyphs, width, smin, smax, mode, bg).Ok?
        <==> PlanFor(glyphs, width, smin, smax, mode).Ok? && |PlanFor(glyphs, width, smin, smax, mode).value.gaps| == |glyphs| - 1
  {
  }

  /** When the narrowest gap leaves no slack, it is the first candidate with a
      non-negative slack, so it is the one chosen, with no slack left. */
  lemma TightChoice(width: int, m: int, n: nat, smin: int, g: int, slack: int)
    requires n >= 1 && smin <= g && Slack(width, m, n, smin) == 0
    requires slack == Slack(width, m, n, g) >= 0
    requires forall g' :: smin <= g' < g ==> Slack(width, m, n, g') != slack
    ensures g == smin && slack == 0
  {
    if smin < g && n > 1 {
      MulStrict(smin, g, n - 1);
    }
  }

  /** The worked example: two glyphs 28 columns wide on a canvas of 100 with
      spacing 10..20 in progressive mode get one gap of 10 and margins of 17. */
  lemma ProgressiveExample<P>(a: Raster<P>, b: Raster<P>, bg: P)
    requires Joinable([a, b]) && a.cols == 28 && b.cols == 28
    ensures Generate([a, b], 100, 10, 20, "PROGRESSIVE", bg).Ok?
    ensures Generate([a, b], 100, 10, 20, "PROGRESSIVE", bg).value.1
         == LayoutInfo((a.rows, 100), 17, 17, [10], 2)
  {
    assert Widths([a, b]) == [28, 28];
    assert Sum([28, 28]) == 56 by {
      assert [28, 28][..1] == [28];
      assert [28][..0] == [];
    }
    assert ProgressiveGaps(2, 10, 20) == [10];
    assert Sum([10]) == 10 by {
      assert [10][..0] == [];
    }
  }

  /** The second worked example: the same glyphs on a canvas of 50 fail the width check. */
  lemma NarrowCanvasExample<P>(a: Raster<P>, b: Raster<P>, bg: P)
    requires Joinable([a, b]) && a.cols == 28 && b.cols == 28
    ensures Generate([a, b], 50, 10, 20, "PROGRESSIVE", bg) == Err(WidthTooSmall(50, 56))
  {
    assert Widths([a, b]) == [28, 28];
    assert Sum([28, 28]) == 56 by {
      assert [28, 28][..1] == [28];
      assert [28][..0] == [];
    }
  }
}

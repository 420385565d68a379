/** The layout engine of the digit-sequence generator (`_generate_sequence`):
    given glyphs, a canvas width and a spacing range, choose the gaps between
    glyphs and the two margins under the equalized or the progressive policy,
    and join glyphs and background columns left to right into one image whose
    width is exactly the requested one. */
module Layout {
  import opened Common
  import opened Rasters

  /** The exceptions the engine raises. */
  datatype LayoutError =
    | WidthTooSmall(imageWidth: int, minRequiredWidth: int)
      // the glyphs alone are wider than the canvas
    | NoFeasibleGap(imageWidth: int, minRequiredWidth: int, slacks: seq<int>)
      // equalized: no gap in the range leaves a non-negative slack
    | ProgressiveNoFit(imageWidth: int, minRequiredWidth: int, gaps: seq<int>, remaining: int)
      // progressive: the glyphs and the gaps do not fit
    | GapIndexOutOfRange(index: nat, size: nat)
      // progressive: the range holds fewer values than there are gaps

  /** The metadata the engine reports next to the image. */
  datatype LayoutInfo = LayoutInfo(
    fullImageSize: (nat, int),
    leftMargin: nat,
    rightMargin: nat,
    betweenMargins: seq<int>,
    numberOfLabels: nat)

  /** Margins, the gaps that are actually drawn, and the gaps that are reported. */
  datatype Plan = Plan(left: nat, gaps: seq<nat>, right: nat, between: seq<int>)

  /** Glyphs that `np.hstack` can join: at least one, each well formed, all of one height. */
  predicate Joinable<P>(glyphs: seq<Raster<P>>)
  {
    && |glyphs| >= 1
    && forall i :: 0 <= i < |glyphs| ==> glyphs[i].Wf() && glyphs[i].rows == glyphs[0].rows
  }

  function Widths<P>(glyphs: seq<Raster<P>>): (w: seq<int>)
    ensures |w| == |glyphs|
    ensures forall i :: 0 <= i < |glyphs| ==> w[i] == glyphs[i].cols
  {
    seq(|glyphs|, i requires 0 <= i < |glyphs| => glyphs[i].cols)
  }

  /** `sum([x.shape[1] for x in glyphs])` */
  function MinRequiredWidth<P>(glyphs: seq<Raster<P>>): (m: int)
    ensures m >= 0
  {
    SumNonNegative(Widths(glyphs));
    Sum(Widths(glyphs))
  }

  /** `max([x.shape[0] for x in glyphs])` */
  function MaxHeight<P>(glyphs: seq<Raster<P>>): (h: nat)
    requires |glyphs| >= 1
    ensures forall i :: 0 <= i < |glyphs| ==> glyphs[i].rows <= h
    ensures exists i :: 0 <= i < |glyphs| && glyphs[i].rows == h
  {
    if |glyphs| == 1 then glyphs[0].rows
    else
      var m := MaxHeight(glyphs[..|glyphs| - 1]);
      if glyphs[|glyphs| - 1].rows > m then glyphs[|glyphs| - 1].rows else m
  }

  /** The spacing-mode string takes the equalized path when it matches the
      regular expression `^(EQUALIZED){1}_{1}(MAX|MIN)$` under Python's `re.search`,
      whose `$` also matches just before a final newline. */
  predicate IsEqualizedMode(mode: string)
  {
    mode == "EQUALIZED_MAX" || mode == "EQUALIZED_MIN" ||
    mode == "EQUALIZED_MAX\n" || mode == "EQUALIZED_MIN\n"
  }

  /** `np.arange(smin, smax + 1, 1)`: empty when `smax < smin`. */
  function GapRange(smin: int, smax: int): seq<int>
  {
    seq(if smax < smin then 0 else smax - smin + 1, i => smin + i)
  }

  /** The room left over when all `n - 1` gaps are `g` wide. */
  function Slack(width: int, minRequired: int, n: nat, g: int): int
  {
    width - (minRequired + (n - 1) * g)
  }

  /** `rightEndWhiteSpaceLeft`: the slack for every candidate gap, in range order. */
  function Slacks(width: int, minRequired: int, n: nat, range: seq<int>): (s: seq<int>)
    ensures |s| == |range|
    ensures forall j :: 0 <= j < |range| ==> s[j] == Slack(width, minRequired, n, range[j])
  {
    seq(|range|, j requires 0 <= j < |range| => Slack(width, minRequired, n, range[j]))
  }

  /** `s[np.where(s >= 0)]`: the non-negative elements, in order. */
  function NonNegative(s: seq<int>): (f: seq<int>)
    ensures forall x :: x in f <==> x in s && x >= 0
  {
    if s == [] then []
    else if s[|s| - 1] >= 0 then NonNegative(s[..|s| - 1]) + [s[|s| - 1]]
    else NonNegative(s[..|s| - 1])
  }

  /** Python's `min` over a non-empty sequence. */
  function Least(s: seq<int>): (m: int)
    requires |s| > 0
    ensures m in s && forall x :: x in s ==> m <= x
  {
    if |s| == 1 then s[0]
    else
      var rest := Least(s[1..]);
      assert s == [s[0]] + s[1..];
      if s[0] <= rest then s[0] else rest
  }

  /** Python's `max` over a non-empty sequence. */
  function Greatest(s: seq<int>): (m: int)
    requires |s| > 0
    ensures m in s && forall x :: x in s ==> x <= m
  {
    if |s| == 1 then s[0]
    else
      var rest := Greatest(s[1..]);
      assert s == [s[0]] + s[1..];
      if s[0] >= rest then s[0] else rest
  }

  /** `np.where(s == x)[0][0]`: the first position holding `x`. */
  function FirstIndex(s: seq<int>, x: int): (k: nat)
    requires x in s
    ensures k < |s| && s[k] == x
    ensures forall j :: 0 <= j < k ==> s[j] != x
  {
    if s[0] == x then 0 else 1 + FirstIndex(s[1..], x)
  }

  /** The equalized choice: the gap `g` and the slack it leaves, or None when
      no candidate leaves a non-negative slack. `EQUALIZED_MAX` takes the least
      non-negative slack, every other equalized mode the greatest; the first
      candidate in range order that has it wins. */
  function EqualizedChoice(width: int, minRequired: int, n: nat, smin: int, smax: int, mode: string): (c: Option<(int, int)>)
    requires n >= 1
    ensures c.Some? ==> smin <= c.value.0 <= smax
    ensures c.Some? ==> c.value.1 == Slack(width, minRequired, n, c.value.0) >= 0
  {
    var range := GapRange(smin, smax);
    var slacks := Slacks(width, minRequired, n, range);
    var feasible := NonNegative(slacks);
    if |feasible| == 0 then None
    else
      var best := if mode == "EQUALIZED_MAX" then Least(feasible) else Greatest(feasible);
      var k := FirstIndex(slacks, best);
      Some((range[k], best))
  }

  /** Equalized policy: every gap is the chosen `g`; the slack is split into
      the margins; `g` is reported once per glyph. */
  function EqualizedPlan(width: int, minRequired: int, n: nat, smin: int, smax: int, mode: string): (r: Result<Plan, LayoutError>)
    requires n >= 1 && smin >= 0
    ensures r.Ok? ==> |r.value.gaps| == n - 1
    ensures r.Ok? ==> r.value.left + minRequired + Sum(r.value.gaps) + r.value.right == width
    ensures r.Ok? ==> 0 <= r.value.right - r.value.left <= 1
  {
    match EqualizedChoice(width, minRequired, n, smin, smax, mode)
    case None => Err(NoFeasibleGap(width, minRequired, Slacks(width, minRequired, n, GapRange(smin, smax))))
    case Some((g, slack)) =>
      SumRepeat(g, n - 1);
      Ok(Plan(slack / 2, Repeat(g, n - 1), slack - slack / 2, Repeat(g, n)))
  }

  /** `np.arange(smin, smax + 1, 1)[0:n - 1]`: the slice stops at the end of the range. */
  function ProgressiveGaps(n: nat, smin: int, smax: int): seq<int>
    requires n >= 1
  {
    var range := GapRange(smin, smax);
    range[..if n - 1 < |range| then n - 1 else |range|]
  }

  /** Progressive policy: gaps `smin, smin + 1, ...`, as many as the range
      holds up to `n - 1`; a negative remainder fails. A range too short to
      supply every gap is only noticed later, when the glyphs are joined. */
  function ProgressivePlan(width: int, minRequired: int, n: nat, smin: int, smax: int): (r: Result<Plan, LayoutError>)
    requires n >= 1 && smin >= 0
    ensures r.Ok? ==> |r.value.gaps| <= n - 1
  {
    var gaps := ProgressiveGaps(n, smin, smax);
    var remaining := width - (minRequired + Sum(gaps));
    if remaining < 0 then Err(ProgressiveNoFit(width, minRequired, gaps, remaining))
    else Ok(Plan(remaining / 2, gaps, remaining - remaining / 2, gaps))
  }

  /** The whole arithmetic of the engine: the width check first, then the policy.
      On success, margins, glyphs and the gaps add up to the requested width
      exactly, and the right margin is the left one or one column more. */
  function PlanFor<P>(glyphs: seq<Raster<P>>, width: int, smin: int, smax: int, mode: string): (r: Result<Plan, LayoutError>)
    requires Joinable(glyphs) && smin >= 0
    ensures r.Ok? ==> |r.value.gaps| <= |glyphs| - 1
    ensures r.Ok? && IsEqualizedMode(mode) ==> |r.value.gaps| == |glyphs| - 1
    ensures r.Ok? ==> r.value.left + MinRequiredWidth(glyphs) + Sum(r.value.gaps) + r.value.right == width
    ensures r.Ok? ==> 0 <= r.value.right - r.value.left <= 1
  {
    var n := |glyphs|;
    var minRequired := MinRequiredWidth(glyphs);
    if minRequired > width then Err(WidthTooSmall(width, minRequired))
    else if IsEqualizedMode(mode) then EqualizedPlan(width, minRequired, n, smin, smax, mode)
    else ProgressivePlan(width, minRequired, n, smin, smax)
  }

  /** Where glyph `i` starts, counted from the left edge of the joined glyphs. */
  function Offset<P>(glyphs: seq<Raster<P>>, gaps: seq<nat>, i: nat): (o: int)
    requires i <= |glyphs| && i <= |gaps|
    ensures o >= 0
  {
    SumNonNegative(Widths(glyphs)[..i]);
    SumNonNegative(gaps[..i]);
    Sum(Widths(glyphs)[..i]) + Sum(gaps[..i])
  }

  /** The first `k` glyphs joined with their gaps, as the source's loop builds them:
      glyph 0, then a gap of background and the next glyph, again and again. */
  function Strip<P>(glyphs: seq<Raster<P>>, gaps: seq<nat>, k: nat, bg: P): (s: Raster<P>)
    requires Joinable(glyphs) && 1 <= k <= |glyphs| && k - 1 <= |gaps|
    ensures s.Wf() && s.rows == glyphs[0].rows
    ensures s.cols == Offset(glyphs, gaps, k - 1) + glyphs[k - 1].cols
    decreases k
  {
    if k == 1 then glyphs[0]
    else
      var prev := Strip(glyphs, gaps, k - 1, bg);
      SumPrefixStep(Widths(glyphs), k - 2);
      SumPrefixStep(gaps, k - 2);
      HStack(HStack(prev, Blank(glyphs[0].rows, gaps[k - 2], bg)), glyphs[k - 1])
  }

  /** Left margin, the joined glyphs, right margin. */
  function Compose<P>(glyphs: seq<Raster<P>>, gaps: seq<nat>, left: nat, right: nat, bg: P): (img: Raster<P>)
    requires Joinable(glyphs) && |glyphs| - 1 <= |gaps|
    ensures img.Wf() && img.rows == glyphs[0].rows
  {
    var h := MaxHeight(glyphs);
    HStack(HStack(Blank(h, left, bg), Strip(glyphs, gaps, |glyphs|, bg)), Blank(h, right, bg))
  }

  /** The engine's outcome: the composed image and its metadata, or the error it raises. */
  function Generate<P>(glyphs: seq<Raster<P>>, width: int, smin: int, smax: int, mode: string, bg: P)
    : Result<(Raster<P>, LayoutInfo), LayoutError>
    requires Joinable(glyphs) && smin >= 0
  {
    match PlanFor(glyphs, width, smin, smax, mode)
    case Err(e) => Err(e)
    case Ok(p) =>
      if |p.gaps| < |glyphs| - 1 then Err(GapIndexOutOfRange(|p.gaps|, |p.gaps|))
      else
        Ok((Compose(glyphs, p.gaps, p.left, p.right, bg),
            LayoutInfo((MaxHeight(glyphs), p.left + MinRequiredWidth(glyphs) + Sum(p.gaps) + p.right),
                       p.left, p.right, p.between, |glyphs|)))
  }

  /** The source's joining loop: glyph 0, then for each later glyph `i` a gap of
      `gaps[i - 1]` background columns and glyph `i`. It fails at the first
      gap the sequence does not hold. */
  method JoinGlyphs<P>(glyphs: seq<Raster<P>>, gaps: seq<nat>, bg: P) returns (r: Result<Raster<P>, LayoutError>)
    requires Joinable(glyphs)
    ensures |gaps| < |glyphs| - 1 ==> r == Err(GapIndexOutOfRange(|gaps|, |gaps|))
    ensures |gaps| >= |glyphs| - 1 ==> r == Ok(Strip(glyphs, gaps, |glyphs|, bg))
  {
    var h := MaxHeight(glyphs);
    var final := glyphs[0];
    var i := 1;
    while i < |glyphs|
      invariant 1 <= i <= |glyphs| && i - 1 <= |gaps|
      invariant final == Strip(glyphs, gaps, i, bg)
    {
      if i - 1 >= |gaps| {
        return Err(GapIndexOutOfRange(i - 1, |gaps|));
      }
      final := HStack(HStack(final, Blank(h, gaps[i - 1], bg)), glyphs[i]);
      i := i + 1;
    }
    return Ok(final);
  }

  /** `_generate_sequence`: the arithmetic of `PlanFor`, then the joining loop,
      then the margins; its outcome is `Generate`. */
  method GenerateSequence<P>(glyphs: seq<Raster<P>>, width: int, smin: int, smax: int, mode: string, bg: P)
    returns (r: Result<(Raster<P>, LayoutInfo), LayoutError>)
    requires Joinable(glyphs) && smin >= 0
    ensures r == Generate(glyphs, width, smin, smax, mode, bg)
  {
    var plan := PlanFor(glyphs, width, smin, smax, mode);
    if plan.Err? {
      return Err(plan.error);
    }
    var p := plan.value;
    var minRequired := MinRequiredWidth(glyphs);
    // the source's consistency check, which therefore never fires
    assert p.left + minRequired + Sum(p.gaps) + p.right == width;
    var h := MaxHeight(glyphs);
    var joined := JoinGlyphs(glyphs, p.gaps, bg);
    if joined.Err? {
      return Err(joined.error);
    }
    assert |p.gaps| >= |glyphs| - 1 && joined.value == Strip(glyphs, p.gaps, |glyphs|, bg);
    var final := HStack(HStack(Blank(h, p.left, bg), joined.value), Blank(h, p.right, bg));
    assert final == Compose(glyphs, p.gaps, p.left, p.right, bg);
    r := Ok((final, LayoutInfo((h, p.left + minRequired + Sum(p.gaps) + p.right), p.left, p.right, p.between, |glyphs|)));
  }
}

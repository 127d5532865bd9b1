/**
 The geometry of the run-duration chart, over the real numbers: `round(x, 1)` is the nearest tenth,
 ties to the even one.
 */
module DurationChart {
  import opened Wrappers

  const MAX_BARS := 30
  const TOP_PAD := 6
  const MIN_BAR_HEIGHT := 2.0
  const MAX_BAR_WIDTH := 24.0

  datatype Run = Run(pk: nat, duration: Option<real>)

  datatype Bar = Bar(pk: nat, x: real, y: real, w: real, h: real)

  datatype Chart = Empty | Chart(bars: seq<Bar>, avgY: real)

  // ----- Rounding -----

  function HalfEven(y: real): int {
    var f := y.Floor;
    var d := y - f as real;
    if d < 0.5 || (d == 0.5 && f % 2 == 0) then f else f + 1
  }

  function Round1(x: real): real {
    HalfEven(x * 10.0) as real / 10.0
  }

  lemma RoundClose(x: real)
    ensures x - 0.05 <= Round1(x) <= x + 0.05
  {}

  lemma HalfEvenMonotone(y: real, z: real)
    requires y <= z
    ensures HalfEven(y) <= HalfEven(z)
  {}

  lemma RoundMonotone(x: real, z: real)
    requires x <= z
    ensures Round1(x) <= Round1(z)
  {
    HalfEvenMonotone(x * 10.0, z * 10.0);
  }

  function Tenth(k: int): real {
    k as real / 10.0
  }

  ghost predicate Tenths(x: real) {
    exists k :: x == Tenth(k)
  }

  lemma RoundTenth(k: int)
    ensures Round1(Tenth(k)) == Tenth(k)
  {
    assert Tenth(k) * 10.0 == k as real;
    assert HalfEven(k as real) == k;
  }

  lemma RoundGivesTenths(x: real)
    ensures Tenths(Round1(x))
  {
    assert Round1(x) == Tenth(HalfEven(x * 10.0));
  }

  lemma WholeIsTenths(n: int)
    ensures Tenths(n as real) && Round1(n as real) == n as real
  {
    assert n as real == Tenth(n * 10);
    RoundTenth(n * 10);
  }

  // ----- What the source computes -----

  function Finished(runs: seq<Run>): seq<Run> {
    if runs == [] then [] else
    Finished(runs[..|runs| - 1]) + if runs[|runs| - 1].duration.Some? then [runs[|runs| - 1]] else []
  }

  /** `[...][-30:]` */
  function Charted(runs: seq<Run>): seq<Run> {
    var all := Finished(runs);
    if |all| <= MAX_BARS then all else all[|all| - MAX_BARS..]
  }

  function Durations(runs: seq<Run>): seq<real> {
    seq(|runs|, i requires 0 <= i < |runs| => if runs[i].duration.Some? then runs[i].duration.value else 0.0)
  }

  function Max(s: seq<real>): real
    requires s != []
  {
    if |s| == 1 then s[0] else
    var m := Max(s[..|s| - 1]);
    if s[|s| - 1] > m then s[|s| - 1] else m
  }

  function Sum(s: seq<real>): real {
    if s == [] then 0.0 else Sum(s[..|s| - 1]) + s[|s| - 1]
  }

  function Scaled(seconds: real, maxSeconds: real, height: int): real
    requires maxSeconds > 0.0
  {
    seconds / maxSeconds * (height - TOP_PAD) as real
  }

  function BarHeight(seconds: real, maxSeconds: real, height: int): real {
    if maxSeconds <= 0.0 then MIN_BAR_HEIGHT else
    var scaled := Round1(Scaled(seconds, maxSeconds, height));
    if scaled > MIN_BAR_HEIGHT then scaled else MIN_BAR_HEIGHT
  }

  function Slot(width: real, n: nat): real
    requires n > 0
  {
    width / n as real
  }

  function BarWidth(slot: real): real {
    var w := Round1(slot * 0.7);
    if w < MAX_BAR_WIDTH then w else MAX_BAR_WIDTH
  }

  /** Where slot number `index` begins. */
  function Offset(index: int, slot: real): real {
    index as real * slot
  }

  function Left(index: int, slot: real, w: real): real {
    Round1(Offset(index, slot) + (slot - w) / 2.0)
  }

  function BarAt(pk: nat, index: nat, seconds: real, maxSeconds: real, slot: real, height: int): Bar {
    var h := BarHeight(seconds, maxSeconds, height);
    var w := BarWidth(slot);
    Bar(pk, Left(index, slot, w), Round1(height as real - h), w, h)
  }

  function Average(s: seq<real>): real
    requires s != []
  {
    Sum(s) / |s| as real
  }

  // ----- Arithmetic -----

  lemma Quotients(a: real, b: real, m: real)
    requires a <= b && m > 0.0
    ensures a / m <= b / m
  {}

  lemma Products(a: real, b: real, u: real)
    requires a <= b && u >= 0.0
    ensures a * u <= b * u
  {}

  lemma OffsetStep(i: int, slot: real)
    ensures Offset(i + 1, slot) == Offset(i, slot) + slot
  {
    assert (i + 1) as real == i as real + 1.0;
  }

  lemma {:induction false} OffsetsApart(i: int, j: int, slot: real)
    requires i < j && slot > 0.0
    ensures Offset(j, slot) >= Offset(i, slot) + slot
    decreases j - i
  {
    OffsetStep(j - 1, slot);
    if i < j - 1 {
      OffsetsApart(i, j - 1, slot);
    }
  }

  // ----- Horizontally -----

  lemma SlotLength(width: real, n: nat)
    requires 0 < n <= MAX_BARS && width >= 15.0
    ensures Slot(width, n) >= 0.5 && Offset(n, Slot(width, n)) == width
  {
    var m := n as real;
    Quotients(0.5 * m, width, m);
    assert 0.5 * m / m == 0.5;
    assert width / m * m == width;
  }

  lemma WidthOfBar(slot: real)
    requires slot >= 0.5
    ensures 0.3 <= BarWidth(slot) <= slot - 0.1
  {
    RoundClose(slot * 0.7);
  }

  lemma LeftClose(i: int, slot: real, w: real)
    ensures Offset(i, slot) + (slot - w) / 2.0 - 0.05 <= Left(i, slot, w) <= Offset(i, slot) + (slot - w) / 2.0 + 0.05
  {
    RoundClose(Offset(i, slot) + (slot - w) / 2.0);
  }

  /** Bars do not overlap, whatever the rounding does. */
  lemma BarsApart(i: int, j: int, slot: real, w: real)
    requires i < j && 0.0 < w <= slot - 0.1
    ensures Left(i, slot, w) + w <= Left(j, slot, w)
  {
    LeftClose(i, slot, w);
    LeftClose(j, slot, w);
    OffsetsApart(i, j, slot);
  }

  lemma BarInside(i: int, n: nat, slot: real, w: real)
    requires 0 <= i < n && 0.0 < w <= slot - 0.1
    ensures 0.0 <= Left(i, slot, w) && Left(i, slot, w) + w <= Offset(n, slot)
  {
    LeftClose(i, slot, w);
    OffsetsApart(-1, i, slot);
    OffsetsApart(i, n, slot);
    OffsetStep(-1, slot);
  }

  // ----- Vertically -----

  lemma ScaledMonotone(a: real, b: real, maxSeconds: real, height: int)
    requires height >= 8 && a <= b && maxSeconds > 0.0
    ensures Scaled(a, maxSeconds, height) <= Scaled(b, maxSeconds, height)
  {
    Quotients(a, b, maxSeconds);
    Products(a / maxSeconds, b / maxSeconds, (height - TOP_PAD) as real);
  }

  lemma ScaledMax(maxSeconds: real, height: int)
    requires maxSeconds > 0.0
    ensures Scaled(maxSeconds, maxSeconds, height) == (height - TOP_PAD) as real
  {
    assert maxSeconds / maxSeconds == 1.0;
  }

  lemma HeightMonotone(a: real, b: real, maxSeconds: real, height: int)
    requires height >= 8 && a <= b
    ensures BarHeight(a, maxSeconds, height) <= BarHeight(b, maxSeconds, height)
  {
    if maxSeconds > 0.0 {
      ScaledMonotone(a, b, maxSeconds, height);
      RoundMonotone(Scaled(a, maxSeconds, height), Scaled(b, maxSeconds, height));
    }
  }

  /** The slowest bar fills the usable height. */
  lemma SlowestHeight(maxSeconds: real, height: int)
    requires height >= 8
    ensures BarHeight(maxSeconds, maxSeconds, height) ==
            if maxSeconds > 0.0 then (height - TOP_PAD) as real else MIN_BAR_HEIGHT
  {
    if maxSeconds > 0.0 {
      ScaledMax(maxSeconds, height);
      WholeIsTenths(height - TOP_PAD);
    }
  }

  lemma HeightRange(seconds: real, maxSeconds: real, height: int)
    requires height >= 8 && seconds <= maxSeconds
    ensures var h := BarHeight(seconds, maxSeconds, height);
            && MIN_BAR_HEIGHT <= h <= (height - TOP_PAD) as real
            && Tenths(h)
  {
    HeightMonotone(seconds, maxSeconds, maxSeconds, height);
    SlowestHeight(maxSeconds, height);
    WholeIsTenths(2);
    if maxSeconds > 0.0 {
      RoundGivesTenths(Scaled(seconds, maxSeconds, height));
    }
  }

  /** A tenth below a whole number is still a tenth, so the top edge needs no rounding. */
  lemma TopEdgeExact(h: real, height: int)
    requires Tenths(h)
    ensures Round1(height as real - h) == height as real - h
  {
    var k :| h == Tenth(k);
    assert height as real - h == Tenth(height * 10 - k);
    RoundTenth(height * 10 - k);
  }

  lemma {:induction false} MaxBounds(s: seq<real>, i: nat)
    requires i < |s|
    ensures s[i] <= Max(s)
    decreases |s|
  {
    if |s| > 1 && i < |s| - 1 {
      MaxBounds(s[..|s| - 1], i);
    }
  }

  lemma {:induction false} MaxIsReached(s: seq<real>) returns (i: nat)
    requires s != []
    ensures i < |s| && s[i] == Max(s)
    decreases |s|
  {
    i := 0;
    if |s| > 1 {
      i := MaxIsReached(s[..|s| - 1]);
      if s[|s| - 1] > Max(s[..|s| - 1]) {
        i := |s| - 1;
      }
    }
  }

  lemma {:induction false} SumBound(s: seq<real>, m: real)
    requires forall i :: 0 <= i < |s| ==> s[i] <= m
    ensures Sum(s) <= m * |s| as real
    decreases |s|
  {
    if s != [] {
      SumBound(s[..|s| - 1], m);
    }
  }

  lemma AverageBelowMax(s: seq<real>)
    requires s != []
    ensures Average(s) <= Max(s)
  {
    forall i | 0 <= i < |s|
      ensures s[i] <= Max(s)
    {
      MaxBounds(s, i);
    }
    SumBound(s, Max(s));
    Quotients(Sum(s), Max(s) * |s| as real, |s| as real);
    assert Max(s) * |s| as real / |s| as real == Max(s);
  }

  // ----- To scale -----

  predicate Near(x: real, y: real, tolerance: real) {
    y - tolerance <= x <= y + tolerance
  }

  /** The height of a bar before rounding: in proportion to the slowest, above a sliver of two. */
  function Ideal(seconds: real, slowest: real, height: int): real {
    if slowest <= 0.0 then 2.0 else
    var h := seconds / slowest * (height - 6) as real;
    if h < 2.0 then 2.0 else h
  }

  lemma HeightProportional(seconds: real, slowest: real, height: int)
    ensures Near(BarHeight(seconds, slowest, height), Ideal(seconds, slowest, height), 0.05)
  {
    if slowest > 0.0 {
      var scaled := Scaled(seconds, slowest, height);
      RoundClose(scaled);
      assert Ideal(seconds, slowest, height) == if scaled < 2.0 then 2.0 else scaled;
    }
  }

  lemma WidthToScale(width: real, n: nat)
    requires n > 0
    ensures var share := 0.7 * (width / n as real); var ideal := if share < 24.0 then share else 24.0;
            Near(BarWidth(Slot(width, n)), ideal, 0.05)
  {
    RoundClose(Slot(width, n) * 0.7);
  }

  predicate AllFinished(shown: seq<Run>) {
    forall i :: 0 <= i < |shown| ==> shown[i].duration.Some?
  }

  /** The last thirty of these, or all if there are fewer. */
  predicate LastThirty(shown: seq<Run>, all: seq<Run>) {
    |shown| == (if |all| < 30 then |all| else 30) && all[|all| - |shown|..] == shown
  }

  /** One bar: a rectangle of the run's own slot, centred, standing on the baseline, in proportion. */
  predicate BarToScale(b: Bar, r: Run, i: nat, n: nat, slowest: real, width: real, height: int)
    requires n > 0 && r.duration.Some?
  {
    var slot := width / n as real;
    && b.pk == r.pk
    && Near(b.w, if 0.7 * slot < 24.0 then 0.7 * slot else 24.0, 0.05)
    && Near(b.x, i as real * slot + (slot - b.w) / 2.0, 0.05)
    && Near(b.h, Ideal(r.duration.value, slowest, height), 0.05)
    && Near(b.y, height as real - b.h, 0.05)
  }

  lemma BarIsToScale(r: Run, i: nat, n: nat, slowest: real, width: real, height: int)
    requires n > 0 && r.duration.Some?
    ensures BarToScale(BarAt(r.pk, i, r.duration.value, slowest, Slot(width, n), height), r, i, n, slowest, width,
                       height)
  {
    var b := BarAt(r.pk, i, r.duration.value, slowest, Slot(width, n), height);
    WidthToScale(width, n);
    LeftClose(i, Slot(width, n), b.w);
    HeightProportional(r.duration.value, slowest, height);
    RoundClose(height as real - b.h);
  }

  /** The whole chart: every bar, and the average line at the height a run of that duration would have. */
  ghost predicate ToScale(shown: seq<Run>, bars: seq<Bar>, avgY: real, width: real, height: int)
    requires shown != [] && AllFinished(shown)
  {
    var seconds := seq(|shown|, i requires 0 <= i < |shown| => shown[i].duration.value);
    && |bars| == |shown|
    && (forall i :: 0 <= i < |bars| ==> BarToScale(bars[i], shown[i], i, |shown|, Max(seconds), width, height))
    && Near(avgY, height as real - Ideal(Sum(seconds) / |shown| as real, Max(seconds), height), 0.1)
  }

  lemma DrawnToScale(shown: seq<Run>, width: real, height: int)
    requires shown != [] && AllFinished(shown)
    ensures ToScale(shown, Bars(shown, width, height), AverageY(shown, height), width, height)
  {
    var ds := Durations(shown);
    assert ds == seq(|shown|, i requires 0 <= i < |shown| => shown[i].duration.value);
    var bars := Bars(shown, width, height);
    forall i | 0 <= i < |bars|
      ensures BarToScale(bars[i], shown[i], i, |shown|, Max(ds), width, height)
    {
      BarIsToScale(shown[i], i, |shown|, Max(ds), width, height);
    }
    HeightProportional(Average(ds), Max(ds), height);
    RoundClose(height as real - BarHeight(Average(ds), Max(ds), height));
  }

  lemma {:induction false} SumIsAdditive(s: seq<real>, t: seq<real>)
    ensures Sum(s + t) == Sum(s) + Sum(t)
    ensures |t| == 1 ==> Sum(t) == t[0]
    decreases |t|
  {
    if t == [] {
      assert s + t == s;
    } else {
      assert (s + t)[..|s + t| - 1] == s + t[..|t| - 1];
      SumIsAdditive(s, t[..|t| - 1]);
    }
  }

  // ----- The chart -----

  /** The pairwise picture of a chart: bars apart and inside the canvas, standing on the baseline, below
      the top pad, and taller for longer runs. */
  lemma ChartGeometry(shown: seq<Run>, width: real, height: int, i: nat, j: nat)
    requires i < j < |shown| <= MAX_BARS && width >= 15.0 && height >= 8
    ensures var ds := Durations(shown); var slot := Slot(width, |shown|);
            var a := BarAt(shown[i].pk, i, ds[i], Max(ds), slot, height);
            var b := BarAt(shown[j].pk, j, ds[j], Max(ds), slot, height);
            && a.x + a.w <= b.x
            && (ds[i] <= ds[j] ==> a.h <= b.h) && (ds[j] <= ds[i] ==> b.h <= a.h)
  {
    var ds := Durations(shown);
    var slot := Slot(width, |shown|);
    SlotLength(width, |shown|);
    WidthOfBar(slot);
    BarsApart(i, j, slot, BarWidth(slot));
    if ds[i] <= ds[j] {
      HeightMonotone(ds[i], ds[j], Max(ds), height);
    }
    if ds[j] <= ds[i] {
      HeightMonotone(ds[j], ds[i], Max(ds), height);
    }
  }

  lemma BarOnCanvas(shown: seq<Run>, width: real, height: int, i: nat)
    requires i < |shown| <= MAX_BARS && width >= 15.0 && height >= 8
    ensures var ds := Durations(shown);
            var b := BarAt(shown[i].pk, i, ds[i], Max(ds), Slot(width, |shown|), height);
            && 0.0 <= b.x && b.x + b.w <= width
            && b.y >= TOP_PAD as real && b.y + b.h == height as real
  {
    var ds := Durations(shown);
    var b := BarAt(shown[i].pk, i, ds[i], Max(ds), Slot(width, |shown|), height);
    var slot := Slot(width, |shown|);
    MaxBounds(ds, i);
    SlotLength(width, |shown|);
    WidthOfBar(slot);
    BarInside(i, |shown|, slot, BarWidth(slot));
    HeightRange(ds[i], Max(ds), height);
    TopEdgeExact(b.h, height);
  }

  /** The average line lies between the top of the slowest run's bar and the baseline. */
  lemma AverageLine(shown: seq<Run>, height: int) returns (slowest: nat)
    requires 0 < |shown| <= MAX_BARS && height >= 8
    ensures slowest < |shown|
    ensures var ds := Durations(shown);
            var avgY := Round1(height as real - BarHeight(Average(ds), Max(ds), height));
            && ds[slowest] == Max(ds)
            && height as real - BarHeight(ds[slowest], Max(ds), height) <= avgY <= height as real - MIN_BAR_HEIGHT
  {
    var ds := Durations(shown);
    slowest := MaxIsReached(ds);
    AverageBelowMax(ds);
    HeightRange(Average(ds), Max(ds), height);
    HeightMonotone(Average(ds), ds[slowest], Max(ds), height);
    TopEdgeExact(BarHeight(Average(ds), Max(ds), height), height);
  }

  /** Every bar is that of its run and lies on the canvas. */
  predicate OnCanvas(shown: seq<Run>, bars: seq<Bar>, width: real, height: int)
    requires |bars| == |shown|
  {
    forall i :: 0 <= i < |bars| ==>
      && bars[i].pk == shown[i].pk
      && 0.0 <= bars[i].x && bars[i].x + bars[i].w <= width
      && bars[i].y >= TOP_PAD as real && bars[i].y + bars[i].h == height as real
  }

  /** Bars are apart, in the order of the runs, and longer runs do not have lower bars. */
  predicate InOrder(shown: seq<Run>, bars: seq<Bar>)
    requires |bars| == |shown|
  {
    forall i, j :: 0 <= i < j < |bars| ==>
      && bars[i].x + bars[i].w <= bars[j].x
      && (Durations(shown)[i] <= Durations(shown)[j] ==> bars[i].h <= bars[j].h)
      && (Durations(shown)[j] <= Durations(shown)[i] ==> bars[j].h <= bars[i].h)
  }

  /** The average line is between the top of a slowest run's bar and that of the lowest bar there can be. */
  predicate LineBetween(shown: seq<Run>, bars: seq<Bar>, avgY: real, height: int)
    requires |bars| == |shown| > 0
  {
    exists i :: 0 <= i < |bars| && Durations(shown)[i] == Max(Durations(shown)) &&
      bars[i].y <= avgY <= height as real - MIN_BAR_HEIGHT
  }

  function Bars(shown: seq<Run>, width: real, height: int): seq<Bar>
    requires shown != []
  {
    var ds := Durations(shown);
    seq(|shown|, i requires 0 <= i < |shown| =>
      BarAt(shown[i].pk, i, ds[i], Max(ds), Slot(width, |shown|), height))
  }

  lemma BarsOnCanvas(shown: seq<Run>, width: real, height: int)
    requires 0 < |shown| <= MAX_BARS && width >= 15.0 && height >= 8
    ensures OnCanvas(shown, Bars(shown, width, height), width, height)
  {
    var bars := Bars(shown, width, height);
    forall i | 0 <= i < |bars|
      ensures bars[i].pk == shown[i].pk
      ensures 0.0 <= bars[i].x && bars[i].x + bars[i].w <= width
      ensures bars[i].y >= TOP_PAD as real && bars[i].y + bars[i].h == height as real
    {
      BarOnCanvas(shown, width, height, i);
    }
  }

  lemma BarsInOrder(shown: seq<Run>, width: real, height: int)
    requires 0 < |shown| <= MAX_BARS && width >= 15.0 && height >= 8
    ensures InOrder(shown, Bars(shown, width, height))
  {
    var ds := Durations(shown);
    var bars := Bars(shown, width, height);
    forall i, j | 0 <= i < j < |bars|
      ensures bars[i].x + bars[i].w <= bars[j].x
      ensures (ds[i] <= ds[j] ==> bars[i].h <= bars[j].h) && (ds[j] <= ds[i] ==> bars[j].h <= bars[i].h)
    {
      ChartGeometry(shown, width, height, i, j);
    }
  }

  lemma WellDrawn(shown: seq<Run>, width: real, height: int)
    requires 0 < |shown| <= MAX_BARS && width >= 15.0 && height >= 8
    ensures var bars := Bars(shown, width, height);
            && OnCanvas(shown, bars, width, height)
            && InOrder(shown, bars)
            && LineBetween(shown, bars, AverageY(shown, height), height)
  {
    BarsOnCanvas(shown, width, height);
    BarsInOrder(shown, width, height);
    var slowest := AverageLine(shown, height);
    assert Bars(shown, width, height)[slowest].y <= AverageY(shown, height);
  }

  function AverageY(shown: seq<Run>, height: int): real
    requires shown != []
  {
    var ds := Durations(shown);
    Round1(height as real - BarHeight(Average(ds), Max(ds), height))
  }

  /** The chart shows the last thirty finished runs to scale, and holds together for every width and height it
      is meant for. */
  ghost predicate Drawn(runs: seq<Run>, shown: seq<Run>, bars: seq<Bar>, avgY: real, width: real, height: int) {
    && shown != [] && LastThirty(shown, Finished(runs)) && AllFinished(shown)
    && ToScale(shown, bars, avgY, width, height)
    && (width >= 15.0 && height >= 8 ==>
          OnCanvas(shown, bars, width, height) && InOrder(shown, bars) && LineBetween(shown, bars, avgY, height))
  }

  lemma BarsDrawn(runs: seq<Run>, shown: seq<Run>, width: real, height: int)
    requires shown == Charted(runs) != []
    ensures Drawn(runs, shown, Bars(shown, width, height), AverageY(shown, height), width, height)
  {
    ChartedAreFinished(runs);
    DrawnToScale(shown, width, height);
    if width >= 15.0 && height >= 8 {
      WellDrawn(shown, width, height);
    }
  }

  /** The chart of the last thirty finished runs; there is nothing to draw exactly if there are none. */
  method BuildChart(runs: seq<Run>, width: real, height: int) returns (chart: Chart)
    ensures chart.Empty? <==> forall r :: r in runs ==> r.duration.None?
    ensures chart.Chart? ==> Drawn(runs, Charted(runs), chart.bars, chart.avgY, width, height)
  {
    var shown := Charted(runs);
    FinishedMembers(runs);
    if shown == [] {
      return Empty;
    }
    BarsDrawn(runs, shown, width, height);
    var bars := DrawBars(shown, width, height);
    return Chart(bars, AverageY(shown, height));
  }

  method DrawBars(shown: seq<Run>, width: real, height: int) returns (bars: seq<Bar>)
    requires shown != []
    ensures bars == Bars(shown, width, height)
  {
    var ds := Durations(shown);
    var maxSeconds := Max(ds);
    var slot := Slot(width, |shown|);
    bars := [];
    for i := 0 to |shown|
      invariant |bars| == i
      invariant forall j :: 0 <= j < i ==> bars[j] == Bars(shown, width, height)[j]
    {
      bars := bars + [BarAt(shown[i].pk, i, ds[i], maxSeconds, slot, height)];
    }
  }

  /** The finished runs in their order. */
  lemma {:induction false} FinishedInOrder(older: seq<Run>, newer: seq<Run>)
    ensures Finished(older + newer) == Finished(older) + Finished(newer)
    ensures |newer| == 1 ==> Finished(newer) == if newer[0].duration.Some? then newer else []
    decreases |newer|
  {
    if newer == [] {
      assert older + newer == older;
    } else {
      assert (older + newer)[..|older + newer| - 1] == older + newer[..|newer| - 1];
      FinishedInOrder(older, newer[..|newer| - 1]);
    }
  }

  lemma ChartedAreFinished(runs: seq<Run>)
    ensures AllFinished(Charted(runs)) && LastThirty(Charted(runs), Finished(runs))
  {
    FinishedMembers(runs);
    forall i | 0 <= i < |Charted(runs)|
      ensures Charted(runs)[i].duration.Some?
    {
      assert Charted(runs)[i] in Finished(runs);
    }
  }

  lemma {:induction false} FinishedMembers(runs: seq<Run>)
    ensures forall r :: r in Finished(runs) <==> r in runs && r.duration.Some?
    decreases |runs|
  {
    if runs != [] {
      var front := runs[..|runs| - 1];
      FinishedMembers(front);
      assert runs == front + [runs[|runs| - 1]];
    }
  }

  /** Without the cap the bars can collide: the second and third of 200 runs in 15 units of width. */
  lemma CapIsNeeded()
    ensures var slot := Slot(15.0, 200); var w := BarWidth(slot); Left(1, slot, w) + w > Left(2, slot, w)
  {
    assert Slot(15.0, 200) == 0.075;
    assert HalfEven(0.525) == 1;
    assert BarWidth(0.075) == 0.1;
    assert HalfEven(0.625) == 1 && HalfEven(1.375) == 1;
    assert Left(1, 0.075, 0.1) == Round1(0.0625) == 0.1;
    assert Left(2, 0.075, 0.1) == Round1(0.1375) == 0.1;
  }
}

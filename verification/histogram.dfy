/**
 The histogram's layout: one bar per record on a time axis, bar heights on a
 linear frequency axis, and a legend listing each event name once.

 Lengths are exact reals (an idealisation of the browser's floating point);
 dates are already parsed into integer milliseconds.
 */
module Histogram {
  import opened Seqs
  import opened Scales

  /** One record: the parsed date, the event's name and its frequency. */
  datatype Record = Record(date: int, event: string, frequency: real)

  /** A drawn bar, in plot coordinates (y grows downwards). */
  datatype Bar = Bar(x: real, y: real, width: real, height: real, event: string)

  /**
   `Math.min(width / n * 0.2, width / 20)`: a fifth of each record's share of
   the width, but never more than a twentieth of the whole plot.
   */
  function BarWidth(width: real, n: nat): (w: real)
    requires n > 0
    ensures w <= width / 20.0
    ensures w <= width / (n as real) * 0.2
    ensures w == width / 20.0 || w == width / (n as real) * 0.2
  {
    var share := width / (n as real) * 0.2;
    var cap := width / 20.0;
    if share < cap then share else cap
  }

  /** Up to four records the cap decides; from four on, the per-record share. */
  lemma BarWidthRegimes(width: real, n: nat)
    requires n > 0 && width >= 0.0
    ensures n <= 4 ==> BarWidth(width, n) == width / 20.0
    ensures n >= 4 ==> BarWidth(width, n) == width / (n as real) * 0.2
    ensures 0.0 <= BarWidth(width, n) <= width
  {
    var share := width / (n as real) * 0.2;
    assert share == width / (5.0 * (n as real));
    if n <= 4 {
      assert 5.0 * (n as real) <= 20.0;
      DivideByLess(width, 5.0 * (n as real), 20.0);
    } else {
      assert 20.0 <= 5.0 * (n as real);
      DivideByLess(width, 20.0, 5.0 * (n as real));
    }
  }

  /** Dividing a non-negative number by something larger gives something smaller. */
  lemma DivideByLess(a: real, b: real, c: real)
    requires a >= 0.0 && 0.0 < b <= c
    ensures 0.0 <= a / c <= a / b
  {
    assert a / c * c == a;
    assert a / b * b == a;
    assert a / c * b <= a / c * c;
  }

  function Dates(data: seq<Record>): seq<int>
  {
    seq(|data|, k requires 0 <= k < |data| => data[k].date)
  }

  function EventNames(data: seq<Record>): seq<string>
  {
    seq(|data|, k requires 0 <= k < |data| => data[k].event)
  }

  /** The top of the frequency axis: the largest frequency, as given (no rounding). */
  function MaxFrequency(data: seq<Record>): (m: real)
    requires |data| > 0
    ensures exists k :: 0 <= k < |data| && data[k].frequency == m
    ensures forall k :: 0 <= k < |data| ==> data[k].frequency <= m
  {
    if |data| == 1 then data[0].frequency
    else
      var rest := MaxFrequency(data[1..]);
      assert forall k :: 1 <= k < |data| ==> data[k] == data[1..][k - 1];
      if data[0].frequency >= rest then data[0].frequency
      else
        var k :| 0 <= k < |data[1..]| && data[1..][k].frequency == rest;
        assert data[k + 1].frequency == rest;
        rest
  }

  /** The bar for one record, given the bar width, the date extent and the frequency maximum. */
  function BarFor(r: Record, barWidth: real, first: int, last: int, top: real, width: real, height: real): Bar
  {
    var y := Scale(0.0, top, height, 0.0, r.frequency);
    Bar(Scale(first as real, last as real, 0.0, width - barWidth, r.date as real), y, barWidth, height - y, r.event)
  }

  /**
   The bars `drawBars` appends after emptying the plot group: whatever the
   group held before (`group`), exactly one bar per record survives.
   */
  function DrawBars(group: seq<Bar>, width: real, height: real, data: seq<Record>): (bars: seq<Bar>)
    ensures |bars| == |data|
    ensures forall k :: 0 <= k < |data| ==>
              && bars[k].event == data[k].event
              && bars[k].width == BarWidth(width, |data|)
              && bars[k].y + bars[k].height == height
  {
    if |data| == 0 then []
    else
      var barWidth := BarWidth(width, |data|);
      var first := Min(Dates(data));
      var last := Max(Dates(data));
      var top := MaxFrequency(data);
      seq(|data|, k requires 0 <= k < |data| => BarFor(data[k], barWidth, first, last, top, width, height))
  }

  lemma DateInExtent(data: seq<Record>, k: nat)
    requires k < |data|
    ensures Min(Dates(data)) <= data[k].date <= Max(Dates(data))
  {
    assert Dates(data)[k] in Dates(data);
  }

  /** Bar `k` is the bar for record `k`, laid out against the whole data set. */
  lemma BarAt(group: seq<Bar>, width: real, height: real, data: seq<Record>, k: nat)
    requires k < |data|
    ensures DrawBars(group, width, height, data)[k]
            == BarFor(data[k], BarWidth(width, |data|), Min(Dates(data)), Max(Dates(data)), MaxFrequency(data), width, height)
  {
  }

  lemma BarForInside(r: Record, barWidth: real, first: int, last: int, top: real, width: real, height: real)
    requires first <= r.date <= last && 0.0 <= barWidth <= width
    ensures var b := BarFor(r, barWidth, first, last, top, width, height);
            0.0 <= b.x && b.x + b.width <= width
  {
    ScaleWithin(first as real, last as real, 0.0, width - barWidth, r.date as real);
  }

  lemma BarForOrder(r: Record, s: Record, barWidth: real, first: int, last: int, top: real, width: real, height: real)
    requires first <= last && barWidth <= width && r.date <= s.date
    ensures BarFor(r, barWidth, first, last, top, width, height).x <= BarFor(s, barWidth, first, last, top, width, height).x
  {
    ScaleMonotonic(first as real, last as real, 0.0, width - barWidth, r.date as real, s.date as real);
  }

  lemma BarForEnds(r: Record, barWidth: real, first: int, last: int, top: real, width: real, height: real)
    ensures var b := BarFor(r, barWidth, first, last, top, width, height);
            && (first < last && r.date == first ==> b.x == 0.0)
            && (first < last && r.date == last ==> b.x + b.width == width)
            && (first == last ==> b.x == (width - b.width) / 2.0)
  {
    if first < last {
      ScaleEndpoints(first as real, last as real, 0.0, width - barWidth);
    }
  }

  /** Every bar lies horizontally inside the plot: left edge at 0 or more, right edge at `width` or less. */
  lemma BarsInsidePlot(group: seq<Bar>, width: real, height: real, data: seq<Record>)
    requires width >= 0.0
    ensures var bars := DrawBars(group, width, height, data);
            forall k :: 0 <= k < |bars| ==> 0.0 <= bars[k].x && bars[k].x + bars[k].width <= width
  {
    var bars := DrawBars(group, width, height, data);
    forall k | 0 <= k < |bars|
      ensures 0.0 <= bars[k].x && bars[k].x + bars[k].width <= width
    {
      BarWidthRegimes(width, |data|);
      DateInExtent(data, k);
      BarAt(group, width, height, data, k);
      BarForInside(data[k], BarWidth(width, |data|), Min(Dates(data)), Max(Dates(data)), MaxFrequency(data), width, height);
    }
  }

  /** A later record's bar is never left of an earlier record's. */
  lemma BarsInDateOrder(group: seq<Bar>, width: real, height: real, data: seq<Record>, i: nat, j: nat)
    requires width >= 0.0
    requires i < |data| && j < |data| && data[i].date <= data[j].date
    ensures DrawBars(group, width, height, data)[i].x <= DrawBars(group, width, height, data)[j].x
  {
    BarWidthRegimes(width, |data|);
    DateInExtent(data, i);
    BarAt(group, width, height, data, i);
    BarAt(group, width, height, data, j);
    BarForOrder(data[i], data[j], BarWidth(width, |data|), Min(Dates(data)), Max(Dates(data)), MaxFrequency(data), width, height);
  }

  /**
   When the dates differ, the earliest record's bar starts at the left edge and
   the latest one's ends at the right edge; when they all coincide, every bar
   sits in the middle.
   */
  lemma BarsSpanPlot(group: seq<Bar>, width: real, height: real, data: seq<Record>, k: nat)
    requires k < |data|
    ensures var bars := DrawBars(group, width, height, data);
            var first := Min(Dates(data));
            var last := Max(Dates(data));
            && (first < last && data[k].date == first ==> bars[k].x == 0.0)
            && (first < last && data[k].date == last ==> bars[k].x + bars[k].width == width)
            && (first == last ==> bars[k].x == (width - bars[k].width) / 2.0)
  {
    BarAt(group, width, height, data, k);
    BarForEnds(data[k], BarWidth(width, |data|), Min(Dates(data)), Max(Dates(data)), MaxFrequency(data), width, height);
  }

  lemma ShareOfHeight(height: real, t: real)
    requires height >= 0.0 && 0.0 <= t <= 1.0
    ensures height - Interpolate(height, 0.0, t) == t * height
    ensures 0.0 <= t * height <= height
  {
    MulNonNegative(t, height);
    MulAtMost(t, height);
  }

  /** The height of one record's bar, given the frequency maximum `top`. */
  lemma BarForHeight(r: Record, barWidth: real, first: int, last: int, top: real, width: real, height: real)
    requires top > 0.0 && 0.0 <= r.frequency <= top && height >= 0.0
    ensures var b := BarFor(r, barWidth, first, last, top, width, height);
            && b.height == r.frequency / top * height
            && 0.0 <= b.height <= height
            && (r.frequency == top ==> b.height == height)
  {
    var t := Normalize(0.0, top, r.frequency);
    assert t == r.frequency / top;
    NormalizeWithin(0.0, top, r.frequency);
    ShareOfHeight(height, t);
  }

  /**
   A bar's height is its record's share of the largest frequency (its
   frequency over the maximum) times the plot height; so a record with a
   non-negative frequency has a bar that fits the plot, and a record with the
   largest frequency has a bar exactly as tall as the plot.
   */
  lemma BarHeight(group: seq<Bar>, width: real, height: real, data: seq<Record>, k: nat)
    requires k < |data| && MaxFrequency(data) > 0.0 && height >= 0.0
    requires data[k].frequency >= 0.0
    ensures var b := DrawBars(group, width, height, data)[k];
            && b.height == Normalize(0.0, MaxFrequency(data), data[k].frequency) * height
            && 0.0 <= b.height <= height
            && (data[k].frequency == MaxFrequency(data) ==> b.height == height)
  {
    BarAt(group, width, height, data, k);
    BarForHeight(data[k], BarWidth(width, |data|), Min(Dates(data)), Max(Dates(data)), MaxFrequency(data), width, height);
  }

  /**
   The legend's names: `Array.from(new Set(names))`, each event name once, in
   order of first occurrence.
   */
  method LegendNames(data: seq<Record>) returns (names: seq<string>)
    ensures names == Distinct(EventNames(data))
    ensures NoDuplicates(names)
    ensures forall x :: x in names ==> x in EventNames(data)
    ensures forall x :: x in EventNames(data) ==> x in names
    ensures forall i, j :: 0 <= i < j < |names| ==>
              FirstIndex(EventNames(data), names[i]) < FirstIndex(EventNames(data), names[j])
  {
    var all := EventNames(data);
    names := [];
    var seen: set<string> := {};
    for i := 0 to |all|
      invariant names == Distinct(all[..i])
      invariant forall x :: x in seen ==> x in all[..i]
      invariant forall x :: x in all[..i] ==> x in seen
    {
      assert all[..i + 1][..i] == all[..i];
      assert all[..i + 1][i] == all[i];
      if all[i] !in seen {
        names := names + [all[i]];
        seen := seen + {all[i]};
      }
    }
    assert all[..|all|] == all;
    DistinctSpec(all);
  }

  /** The size of a legend swatch and the vertical distance between legend entries. */
  const SwatchSize := 18.0
  const EntrySpacing := 20.0

  /** One legend entry: its vertical offset, the swatch's left edge and the label's left edge. */
  datatype LegendEntry = LegendEntry(name: string, offsetY: real, swatchX: real, labelX: real)

  /**
   The legend is a column to the right of the plot, one entry per name in
   order; entries' swatches do not overlap, and each label starts right of
   its swatch.
   */
  function Legend(width: real, names: seq<string>): (entries: seq<LegendEntry>)
    ensures |entries| == |names|
    ensures forall i :: 0 <= i < |names| ==> entries[i].name == names[i]
    ensures forall i :: 0 <= i < |names| ==>
              && entries[i].offsetY == EntrySpacing * (i as real)
              && entries[i].swatchX == width + 20.0
              && entries[i].labelX == entries[i].swatchX + 20.0
    ensures forall i, j :: 0 <= i < j < |names| ==> entries[i].offsetY + SwatchSize < entries[j].offsetY
    ensures forall i :: 0 <= i < |names| ==> width < entries[i].swatchX && entries[i].swatchX + SwatchSize < entries[i].labelX
  {
    seq(|names|, i requires 0 <= i < |names| => LegendEntry(names[i], EntrySpacing * (i as real), width + 20.0, width + 40.0))
  }
}

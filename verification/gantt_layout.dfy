/**
 What the timeline chart derives from the filtered lanes before drawing: the
 band axis's label list, each lane's span, the time domain of the horizontal
 axis and the positions it gives, and the date-range caption.
 */
module GanttLayout {
  import opened Wrappers
  import opened Seqs
  import opened Scales
  import opened GanttFilter

  /** The text between a lane's name and an event's name in an event row's label. */
  const Separator := " - "

  function EventLabel(task: string, event: string): string
  {
    task + Separator + event
  }

  function EventLabels(t: Task): seq<string>
  {
    seq(|t.events|, k requires 0 <= k < |t.events| => EventLabel(t.task, t.events[k].name))
  }

  /** A lane's rows on the band axis: its name, then its events' labels only when it is expanded. */
  function LaneLabels(t: Task): seq<string>
  {
    [t.task] + (if t.expanded then EventLabels(t) else [])
  }

  /** The list handed to the band scale's `domain`: every lane's rows, lane after lane. */
  function YDomain(tasks: seq<Task>): seq<string>
  {
    if |tasks| == 0 then [] else LaneLabels(tasks[0]) + YDomain(tasks[1..])
  }

  /** How many event rows the expanded lanes contribute. */
  function ExpandedEventCount(tasks: seq<Task>): nat
  {
    if |tasks| == 0 then 0
    else (if tasks[0].expanded then |tasks[0].events| else 0) + ExpandedEventCount(tasks[1..])
  }

  /** One row per lane plus one per event of each expanded lane. */
  lemma {:induction false} YDomainLength(tasks: seq<Task>)
    ensures |YDomain(tasks)| == |tasks| + ExpandedEventCount(tasks)
    decreases |tasks|
  {
    if |tasks| > 0 {
      YDomainLength(tasks[1..]);
    }
  }

  lemma {:induction false} YDomainAppend(a: seq<Task>, b: seq<Task>)
    ensures YDomain(a + b) == YDomain(a) + YDomain(b)
    decreases |a|
  {
    if |a| == 0 {
      assert a + b == b;
    } else {
      assert (a + b)[1..] == a[1..] + b;
      YDomainAppend(a[1..], b);
      calc {
        YDomain(a + b);
        LaneLabels(a[0]) + YDomain(a[1..] + b);
        LaneLabels(a[0]) + (YDomain(a[1..]) + YDomain(b));
        (LaneLabels(a[0]) + YDomain(a[1..])) + YDomain(b);
      }
    }
  }

  /**
   Lane `i`'s rows form one contiguous block of the band axis, right after the
   rows of the lanes before it: its name first, then (only when expanded) the
   labels of its events, in order.
   */
  lemma LaneBlock(tasks: seq<Task>, i: nat)
    requires i < |tasks|
    ensures var o := |YDomain(tasks[..i])|;
            o + |LaneLabels(tasks[i])| <= |YDomain(tasks)| &&
            YDomain(tasks)[o..o + |LaneLabels(tasks[i])|] == LaneLabels(tasks[i])
    ensures YDomain(tasks)[|YDomain(tasks[..i])|] == tasks[i].task
  {
    assert tasks == tasks[..i] + tasks[i..];
    YDomainAppend(tasks[..i], tasks[i..]);
    assert YDomain(tasks[i..]) == LaneLabels(tasks[i]) + YDomain(tasks[i + 1..]);
  }

  /** The rows on the band axis are exactly the rows of the individual lanes. */
  lemma {:induction false} YDomainMembers(tasks: seq<Task>)
    ensures forall i, l :: 0 <= i < |tasks| && l in LaneLabels(tasks[i]) ==> l in YDomain(tasks)
    ensures forall l :: l in YDomain(tasks) ==> exists i :: 0 <= i < |tasks| && l in LaneLabels(tasks[i])
    decreases |tasks|
  {
    if |tasks| > 0 {
      YDomainMembers(tasks[1..]);
      forall i, l | 0 <= i < |tasks| && l in LaneLabels(tasks[i])
        ensures l in YDomain(tasks)
      {
        if i > 0 {
          assert tasks[1..][i - 1] == tasks[i];
        }
      }
      forall l | l in YDomain(tasks)
        ensures exists i :: 0 <= i < |tasks| && l in LaneLabels(tasks[i])
      {
        if l !in LaneLabels(tasks[0]) {
          var i :| 0 <= i < |tasks[1..]| && l in LaneLabels(tasks[1..][i]);
          assert tasks[1..][i] == tasks[i + 1];
        }
      }
    }
  }

  /** With every lane collapsed the band axis lists just the lane names. */
  lemma {:induction false} CollapsedDomain(tasks: seq<Task>)
    requires forall i :: 0 <= i < |tasks| ==> !tasks[i].expanded
    ensures |YDomain(tasks)| == |tasks|
    ensures forall i :: 0 <= i < |tasks| ==> YDomain(tasks)[i] == tasks[i].task
    decreases |tasks|
  {
    if |tasks| > 0 {
      CollapsedDomain(tasks[1..]);
    }
  }

  /**
   The bands the chart actually gets: the band scale keeps one band per
   distinct label, in order of first appearance. That order decides each
   row's vertical position.
   */
  function BandDomain(tasks: seq<Task>): (r: seq<string>)
    ensures NoDuplicates(r)
    ensures forall l :: l in r ==> l in YDomain(tasks)
    ensures forall l :: l in YDomain(tasks) ==> l in r
    ensures forall i, j :: 0 <= i < j < |r| ==> FirstIndex(YDomain(tasks), r[i]) < FirstIndex(YDomain(tasks), r[j])
  {
    DistinctSpec(YDomain(tasks));
    Distinct(YDomain(tasks))
  }

  function Starts(es: seq<Event>): seq<int>
  {
    seq(|es|, k requires 0 <= k < |es| => es[k].start)
  }

  function Ends(es: seq<Event>): seq<int>
  {
    seq(|es|, k requires 0 <= k < |es| => es[k].end)
  }

  lemma StartsAndEnds(es: seq<Event>)
    ensures forall e :: e in es ==> e.start in Starts(es) && e.end in Ends(es)
    ensures forall x :: x in Starts(es) ==> exists e :: e in es && e.start == x
    ensures forall x :: x in Ends(es) ==> exists e :: e in es && e.end == x
  {
    forall e | e in es
      ensures e.start in Starts(es) && e.end in Ends(es)
    {
      var k :| 0 <= k < |es| && es[k] == e;
      assert Starts(es)[k] == e.start && Ends(es)[k] == e.end;
    }
    forall x | x in Starts(es)
      ensures exists e :: e in es && e.start == x
    {
      var k :| 0 <= k < |es| && Starts(es)[k] == x;
      assert es[k] in es;
    }
    forall x | x in Ends(es)
      ensures exists e :: e in es && e.end == x
    {
      var k :| 0 <= k < |es| && Ends(es)[k] == x;
      assert es[k] in es;
    }
  }

  /** The smallest start is some event's start, and no event starts earlier. */
  lemma EarliestStart(es: seq<Event>)
    requires |es| > 0
    ensures forall e :: e in es ==> Min(Starts(es)) <= e.start
    ensures exists e :: e in es && e.start == Min(Starts(es))
  {
    StartsAndEnds(es);
    assert Min(Starts(es)) in Starts(es);
  }

  /** The largest end is some event's end, and no event ends later. */
  lemma LatestEnd(es: seq<Event>)
    requires |es| > 0
    ensures forall e :: e in es ==> e.end <= Max(Ends(es))
    ensures exists e :: e in es && e.end == Max(Ends(es))
  {
    StartsAndEnds(es);
    assert Max(Ends(es)) in Ends(es);
  }

  /** The left end of a lane's span bar: the earliest start among its events. */
  function SpanStart(t: Task): int
    requires HasEvents(t)
  {
    Min(Starts(t.events))
  }

  /** The right end of a lane's span bar: the latest end among its events. */
  function SpanEnd(t: Task): int
    requires HasEvents(t)
  {
    Max(Ends(t.events))
  }

  /** A lane's span covers each of its events, and both ends are attained by some event. */
  lemma SpanCoversEvents(t: Task)
    requires HasEvents(t)
    ensures forall e :: e in t.events ==> SpanStart(t) <= e.start && e.end <= SpanEnd(t)
    ensures exists e :: e in t.events && e.start == SpanStart(t)
    ensures exists e :: e in t.events && e.end == SpanEnd(t)
  {
    EarliestStart(t.events);
    LatestEnd(t.events);
  }

  predicate WellFormed(e: Event)
  {
    e.start <= e.end
  }

  /** If every event starts no later than it ends, the span bar has non-negative width. */
  lemma SpanWidthNonNegative(t: Task)
    requires HasEvents(t)
    requires forall e :: e in t.events ==> WellFormed(e)
    ensures SpanStart(t) <= SpanEnd(t)
  {
    SpanCoversEvents(t);
    var e :| e in t.events && e.start == SpanStart(t);
  }

  /** Every event of every lane, lane after lane (`flatMap` over the events). */
  function AllEvents(tasks: seq<Task>): (r: seq<Event>)
    ensures forall t, e :: t in tasks && e in t.events ==> e in r
    ensures forall e :: e in r ==> exists t :: t in tasks && e in t.events
  {
    if |tasks| == 0 then []
    else
      var rest := AllEvents(tasks[1..]);
      assert forall t :: t in tasks[1..] ==> t in tasks;
      assert forall t :: t in tasks ==> t == tasks[0] || t in tasks[1..];
      tasks[0].events + rest
  }

  /** The time axis's domain: earliest start to latest end. */
  datatype Domain = Domain(lo: int, hi: int)

  /** `None` when no event is left: d3's `min` and `max` of an empty list are undefined. */
  function TimeDomain(tasks: seq<Task>): Option<Domain>
  {
    var all := AllEvents(tasks);
    if |all| == 0 then None else Some(Domain(Min(Starts(all)), Max(Ends(all))))
  }

  /** The time domain covers every event it was computed from. */
  lemma DomainCoversEvents(tasks: seq<Task>)
    requires TimeDomain(tasks).Some?
    ensures forall e :: e in AllEvents(tasks) ==>
              TimeDomain(tasks).value.lo <= e.start && e.end <= TimeDomain(tasks).value.hi
  {
    EarliestStart(AllEvents(tasks));
    LatestEnd(AllEvents(tasks));
  }

  /** Every lane's span lies inside the time domain. */
  lemma SpansInsideDomain(tasks: seq<Task>)
    ensures forall t :: t in tasks && HasEvents(t) ==>
              TimeDomain(tasks).Some? &&
              TimeDomain(tasks).value.lo <= SpanStart(t) && SpanEnd(t) <= TimeDomain(tasks).value.hi
  {
    forall t | t in tasks && HasEvents(t)
      ensures TimeDomain(tasks).Some?
      ensures TimeDomain(tasks).value.lo <= SpanStart(t) && SpanEnd(t) <= TimeDomain(tasks).value.hi
    {
      assert t.events[0] in AllEvents(tasks);
      SpanCoversEvents(t);
      var a :| a in t.events && a.start == SpanStart(t);
      var b :| b in t.events && b.end == SpanEnd(t);
      assert a in AllEvents(tasks) && b in AllEvents(tasks);
      DomainCoversEvents(tasks);
    }
  }

  /** The time domain is defined exactly when some lane is shown. */
  lemma DomainDefinedIffShown(members: Members, f: Filters)
    ensures TimeDomain(FilterTasks(members, f)).None? == (FilterTasks(members, f) == [])
  {
    var shown := FilterTasks(members, f);
    if shown != [] {
      assert shown[0] in shown;
      assert shown[0].events[0] in AllEvents(shown);
    }
  }

  /** The horizontal position of instant `t` on a plot `width` wide. */
  function TimeX(d: Domain, width: real, t: int): real
  {
    Scale(d.lo as real, d.hi as real, 0.0, width, t as real)
  }

  /** Every event that is shown is drawn inside the plot, from left to right. */
  lemma ShownEventsInsidePlot(members: Members, f: Filters, width: real)
    requires width >= 0.0
    requires TimeDomain(FilterTasks(members, f)).Some?
    ensures var d := TimeDomain(FilterTasks(members, f)).value;
            forall t, e :: t in FilterTasks(members, f) && e in t.events && WellFormed(e) ==>
              0.0 <= TimeX(d, width, e.start) <= TimeX(d, width, e.end) <= width
  {
    var shown := FilterTasks(members, f);
    var d := TimeDomain(shown).value;
    DomainCoversEvents(shown);
    forall t, e | t in shown && e in t.events && WellFormed(e)
      ensures 0.0 <= TimeX(d, width, e.start) <= TimeX(d, width, e.end) <= width
    {
      assert e in AllEvents(shown);
      assert d.lo <= e.start <= e.end <= d.hi;
      ScaleWithin(d.lo as real, d.hi as real, 0.0, width, e.start as real);
      ScaleWithin(d.lo as real, d.hi as real, 0.0, width, e.end as real);
      ScaleMonotonic(d.lo as real, d.hi as real, 0.0, width, e.start as real, e.end as real);
    }
  }

  /**
   A shown lane's span bar, under the time scale, lies inside the plot and
   has a non-negative pixel width when its events are well formed.
   */
  lemma SpanBarInsidePlot(members: Members, f: Filters, t: Task, width: real)
    requires width >= 0.0
    requires t in FilterTasks(members, f)
    requires forall e :: e in t.events ==> WellFormed(e)
    ensures TimeDomain(FilterTasks(members, f)).Some?
    ensures var d := TimeDomain(FilterTasks(members, f)).value;
            0.0 <= TimeX(d, width, SpanStart(t)) <= TimeX(d, width, SpanEnd(t)) <= width
  {
    var shown := FilterTasks(members, f);
    SpansInsideDomain(shown);
    SpanWidthNonNegative(t);
    var d := TimeDomain(shown).value;
    ScaleWithin(d.lo as real, d.hi as real, 0.0, width, SpanStart(t) as real);
    ScaleWithin(d.lo as real, d.hi as real, 0.0, width, SpanEnd(t) as real);
    ScaleMonotonic(d.lo as real, d.hi as real, 0.0, width, SpanStart(t) as real, SpanEnd(t) as real);
  }

  /** The caption above the chart: blank, a date range, or the exception the formatting raises. */
  datatype RangeText = Blank | Range(lo: int, hi: int) | Throws

  /**
   The bounds of the caption. A bound that was not given (or did not parse)
   falls back to the earliest start or latest end over the member's stored,
   unfiltered events; with no events to fall back on, formatting the
   undefined date throws.
   */
  function DateRangeText(members: Members, memberId: string, from: Option<int>, to: Option<int>): (r: RangeText)
    ensures r.Blank? == !IsMember(members, memberId)
    ensures r.Throws? == (IsMember(members, memberId) && (from.None? || to.None?) && AllEvents(members[memberId]) == [])
    ensures r.Range? && from.Some? ==> r.lo == from.value
    ensures r.Range? && to.Some? ==> r.hi == to.value
    ensures r.Range? && from.None? ==>
              (forall e :: e in AllEvents(members[memberId]) ==> r.lo <= e.start) &&
              (exists e :: e in AllEvents(members[memberId]) && e.start == r.lo)
    ensures r.Range? && to.None? ==>
              (forall e :: e in AllEvents(members[memberId]) ==> e.end <= r.hi) &&
              (exists e :: e in AllEvents(members[memberId]) && e.end == r.hi)
  {
    if !IsMember(members, memberId) then Blank
    else
      var all := AllEvents(members[memberId]);
      if (from.None? || to.None?) && all == [] then Throws
      else
        if all != [] then
          EarliestStart(all);
          LatestEnd(all);
          Range(if from.Some? then from.value else Min(Starts(all)),
                if to.Some? then to.value else Max(Ends(all)))
        else
          Range(from.value, to.value)
  }

  /** Every event the chart shows is one of the member's stored events. */
  lemma ShownEventsAreStored(members: Members, f: Filters)
    requires IsMember(members, f.memberId)
    ensures forall t, e :: t in FilterTasks(members, f) && e in t.events ==> e in AllEvents(members[f.memberId])
  {
    var tasks := members[f.memberId];
    var named := Filter(NameTest(f.taskFilter), tasks);
    var narrowed := Map(NarrowBy(f.from, f.to), named);
    forall t, e | t in FilterTasks(members, f) && e in t.events
      ensures e in AllEvents(tasks)
    {
      assert t in narrowed;
      var k :| 0 <= k < |named| && narrowed[k] == t;
      assert t.events == Filter(RangeTest(f.from, f.to), named[k].events);
      assert e in named[k].events;
      assert named[k] in tasks;
    }
  }

  /** Whatever the filters, the caption's range brackets every event that is shown. */
  lemma CaptionBracketsShownEvents(members: Members, f: Filters)
    requires DateRangeText(members, f.memberId, f.from, f.to).Range?
    ensures var r := DateRangeText(members, f.memberId, f.from, f.to);
            forall t, e :: t in FilterTasks(members, f) && e in t.events ==> r.lo <= e.start && e.end <= r.hi
  {
    var r := DateRangeText(members, f.memberId, f.from, f.to);
    var all := AllEvents(members[f.memberId]);
    ShownEventsAreStored(members, f);
    forall t, e | t in FilterTasks(members, f) && e in t.events
      ensures r.lo <= e.start && e.end <= r.hi
    {
      assert e in all;
      assert f.from.None? ==> r.lo <= e.start;
      assert f.to.None? ==> e.end <= r.hi;
    }
  }

  lemma {:induction false} AllEventsSkipsEmptyLanes(tasks: seq<Task>)
    ensures AllEvents(Filter(HasEvents, tasks)) == AllEvents(tasks)
    decreases |tasks|
  {
    if |tasks| > 0 {
      AllEventsSkipsEmptyLanes(tasks[1..]);
      if HasEvents(tasks[0]) {
        assert ([tasks[0]] + Filter(HasEvents, tasks[1..]))[1..] == Filter(HasEvents, tasks[1..]);
      }
    }
  }

  /**
   With no dates given and the `'all'` filter, the caption shows exactly the
   time domain of the drawn chart.
   */
  lemma CaptionMatchesDomain(members: Members, f: Filters)
    requires IsMember(members, f.memberId) && f.taskFilter == All && f.from.None? && f.to.None?
    requires DateRangeText(members, f.memberId, f.from, f.to).Range?
    ensures var r := DateRangeText(members, f.memberId, f.from, f.to);
            TimeDomain(FilterTasks(members, f)) == Some(Domain(r.lo, r.hi))
  {
    var tasks := members[f.memberId];
    NoFilterKeepsEveryLane(tasks);
    AllEventsSkipsEmptyLanes(tasks);
  }
}

/**
 The timeline's hover tooltip: the duration it reports in whole days and the
 position it is placed at so that it stays on screen.
 */
module GanttTooltip {
  import opened Seqs
  import opened GanttFilter
  import opened GanttLayout

  const MillisPerDay: int := 1000 * 60 * 60 * 24

  /**
   `Math.ceil((end - start) / day)`: the number of days from `start` to `end`,
   a started day counting as a whole one. (Dafny's `/` rounds down when the
   divisor is positive, so the ceiling is the negated floor of the negation.)
   */
  function DurationDays(start: int, end: int): (days: int)
    ensures (days - 1) * MillisPerDay < end - start <= days * MillisPerDay
  {
    -((start - end) / MillisPerDay)
  }

  /** From an earlier to a later instant the count is non-negative, and zero only for the same instant. */
  lemma DurationOfOrderedInstants(start: int, end: int)
    requires start <= end
    ensures DurationDays(start, end) >= 0
    ensures DurationDays(start, end) == 0 <==> start == end
  {
  }

  /** The count is monotonic in the length of the interval. */
  lemma DurationMonotonic(s0: int, e0: int, s1: int, e1: int)
    requires e0 - s0 <= e1 - s1
    ensures DurationDays(s0, e0) <= DurationDays(s1, e1)
  {
    var d0 := DurationDays(s0, e0);
    var d1 := DurationDays(s1, e1);
    assert (d0 - 1) * MillisPerDay < d1 * MillisPerDay;
  }

  /** A lane's tooltip reports at least the duration of each of its events. */
  lemma LaneDurationCoversEvents(t: Task)
    requires HasEvents(t)
    ensures forall e :: e in t.events ==> DurationDays(e.start, e.end) <= DurationDays(SpanStart(t), SpanEnd(t))
  {
    SpanCoversEvents(t);
    forall e | e in t.events
      ensures DurationDays(e.start, e.end) <= DurationDays(SpanStart(t), SpanEnd(t))
    {
      DurationMonotonic(e.start, e.end, SpanStart(t), SpanEnd(t));
    }
  }

  /** The top-left corner of the tooltip, in page pixels. */
  datatype Position = Position(left: int, top: int)

  /**
   The `mousemove` placement. The tooltip goes 5 px right of and 28 px above
   the pointer; when it would come within 20 px of the viewport's right edge
   it flips to end 10 px left of the pointer, and when its height would come
   within 20 px of the bottom edge it is raised to end 10 px above the pointer.
   */
  function TooltipPosition(pageX: int, pageY: int, tooltipWidth: nat, tooltipHeight: nat,
                           viewportWidth: int, viewportHeight: int): (p: Position)
    ensures pageX + tooltipWidth + 20 <= viewportWidth ==>
              p.left == pageX + 5 && p.left + tooltipWidth <= viewportWidth - 15
    ensures pageX + tooltipWidth + 20 > viewportWidth ==> p.left + tooltipWidth + 10 == pageX
    ensures pageY + tooltipHeight + 20 <= viewportHeight ==> p.top + 28 == pageY
    ensures pageY + tooltipHeight + 20 > viewportHeight ==> p.top + tooltipHeight + 10 == pageY
  {
    var left := if pageX + tooltipWidth + 20 > viewportWidth then pageX - tooltipWidth - 10 else pageX + 5;
    var top := if pageY + tooltipHeight + 20 > viewportHeight then pageY - tooltipHeight - 10 else pageY - 28;
    Position(left, top)
  }

  /** Horizontally the tooltip never covers the pointer: it lies wholly to its right or wholly to its left. */
  lemma TooltipClearsPointer(pageX: int, pageY: int, tooltipWidth: nat, tooltipHeight: nat,
                             viewportWidth: int, viewportHeight: int)
    ensures var p := TooltipPosition(pageX, pageY, tooltipWidth, tooltipHeight, viewportWidth, viewportHeight);
            p.left > pageX || p.left + tooltipWidth < pageX
  {
  }

  /**
   The alternative placement relative to a container: the same decisions,
   with positions taken relative to the container's top-left corner.
   */
  function AdjustTooltipPosition(pageX: int, pageY: int, containerLeft: int, containerTop: int,
                                 tooltipWidth: nat, tooltipHeight: nat,
                                 viewportWidth: int, viewportHeight: int): Position
  {
    var left := if pageX + tooltipWidth + 20 > viewportWidth then pageX - containerLeft - tooltipWidth - 10 else pageX - containerLeft + 5;
    var top := if pageY + tooltipHeight + 20 > viewportHeight then pageY - containerTop - tooltipHeight - 10 else pageY - containerTop - 28;
    Position(left, top)
  }

  /** The container-relative placement is the page placement shifted by the container's corner. */
  lemma AdjustedIsShifted(pageX: int, pageY: int, containerLeft: int, containerTop: int,
                          tooltipWidth: nat, tooltipHeight: nat, viewportWidth: int, viewportHeight: int)
    ensures var p := TooltipPosition(pageX, pageY, tooltipWidth, tooltipHeight, viewportWidth, viewportHeight);
            AdjustTooltipPosition(pageX, pageY, containerLeft, containerTop, tooltipWidth, tooltipHeight, viewportWidth, viewportHeight)
              == Position(p.left - containerLeft, p.top - containerTop)
  {
  }
}

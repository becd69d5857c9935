/**
 The timeline ("Gantt") chart's stored data and the state transitions on it:
 the filter that picks what is drawn, the name click that toggles a lane's
 expanded flag in the stored data, and the indicator click that toggles it
 only on a throw-away copy.

 Instants are integer milliseconds. A date input is an `Option<int>`: `None`
 when the input is empty or does not parse (an invalid `Date`).
 */
module GanttFilter {
  import opened Wrappers
  import opened Seqs

  /** One lifecycle event of an account, from `start` to `end`. */
  datatype Event = Event(name: string, start: int, end: int)

  /** A lane: a product name, its events in stored order, and whether it is drawn expanded. */
  datatype Task = Task(task: string, events: seq<Event>, expanded: bool)

  /** The chart's data: each member id's lanes, in stored order. */
  type Members = map<string, seq<Task>>

  /** The four filter inputs the chart reads when it redraws. */
  datatype Filters = Filters(memberId: string, taskFilter: string, from: Option<int>, to: Option<int>)

  /** The task-filter value that selects every lane. */
  const All := "all"

  /** The member-id guard shared by the filter, the toggle and the date-range text: non-empty and present. */
  predicate IsMember(members: Members, id: string)
  {
    id != "" && id in members
  }

  predicate NameSelected(selected: string, t: Task)
  {
    selected == All || t.task == selected
  }

  /** Containment in the chosen dates; an absent bound does not constrain. */
  predicate InRange(from: Option<int>, to: Option<int>, e: Event)
  {
    (from.None? || e.start >= from.value) && (to.None? || e.end <= to.value)
  }

  predicate HasEvents(t: Task)
  {
    |t.events| > 0
  }

  function NameTest(selected: string): Task -> bool
  {
    t => NameSelected(selected, t)
  }

  function RangeTest(from: Option<int>, to: Option<int>): Event -> bool
  {
    e => InRange(from, to, e)
  }

  /** The shallow copy of a lane holding only its events inside the dates. */
  function Narrow(from: Option<int>, to: Option<int>, t: Task): Task
  {
    t.(events := Filter(RangeTest(from, to), t.events))
  }

  function NarrowBy(from: Option<int>, to: Option<int>): Task -> Task
  {
    t => Narrow(from, to, t)
  }

  /** Filter by name, narrow each lane's events to the dates, drop the lanes left empty. */
  function SelectTasks(tasks: seq<Task>, selected: string, from: Option<int>, to: Option<int>): (r: seq<Task>)
    ensures forall t :: t in r ==> HasEvents(t) && NameSelected(selected, t)
    ensures forall t, e :: t in r && e in t.events ==> InRange(from, to, e)
  {
    var named := Filter(NameTest(selected), tasks);
    var narrowed := Map(NarrowBy(from, to), named);
    assert forall t :: t in narrowed ==> NameSelected(selected, t) by {
      forall t | t in narrowed
        ensures NameSelected(selected, t)
      {
        var k :| 0 <= k < |named| && narrowed[k] == t;
        assert NameTest(selected)(named[k]);
      }
    }
    Filter(HasEvents, narrowed)
  }

  /** The lanes the chart draws for the current filter inputs. */
  function FilterTasks(members: Members, f: Filters): (r: seq<Task>)
    ensures !IsMember(members, f.memberId) ==> r == []
    ensures forall t :: t in r ==> HasEvents(t) && NameSelected(f.taskFilter, t)
    ensures forall t, e :: t in r && e in t.events ==> InRange(f.from, f.to, e)
  {
    if !IsMember(members, f.memberId) then []
    else SelectTasks(members[f.memberId], f.taskFilter, f.from, f.to)
  }

  /** Narrowing keeps a lane's name and flag and keeps its events in order. */
  lemma NarrowShape(from: Option<int>, to: Option<int>, t: Task)
    ensures Narrow(from, to, t).task == t.task
    ensures Narrow(from, to, t).expanded == t.expanded
    ensures IsSubsequence(Narrow(from, to, t).events, t.events)
    ensures forall e :: multiset(Narrow(from, to, t).events)[e] == if InRange(from, to, e) then multiset(t.events)[e] else 0
  {
    FilterIsSubsequence(RangeTest(from, to), t.events);
    forall e
      ensures multiset(Narrow(from, to, t).events)[e] == if InRange(from, to, e) then multiset(t.events)[e] else 0
    {
      FilterCount(RangeTest(from, to), t.events, e);
    }
  }

  /** What a narrowed lane needs to be shown: the selected name and some event left. */
  function ShownTest(selected: string): Task -> bool
  {
    t => NameSelected(selected, t) && HasEvents(t)
  }

  /**
   The shown lanes are the narrowed stored lanes filtered once by the name and
   the emptiness tests together: each qualifying lane is shown, in stored
   order, exactly as often as it is stored.
   */
  lemma SelectTasksIsOneFilter(tasks: seq<Task>, selected: string, from: Option<int>, to: Option<int>)
    ensures SelectTasks(tasks, selected, from, to) == Filter(ShownTest(selected), Map(NarrowBy(from, to), tasks))
  {
    FilterMapCommute(NameTest(selected), NameTest(selected), NarrowBy(from, to), tasks);
    FilterFilter(NameTest(selected), HasEvents, ShownTest(selected), Map(NarrowBy(from, to), tasks));
  }

  /**
   The shown lanes are, in stored order, the narrowed copies of stored lanes;
   and every stored lane that passes the name test and keeps an event is shown.
   */
  lemma {:induction false} SelectTasksOrderAndCompleteness(tasks: seq<Task>, selected: string, from: Option<int>, to: Option<int>)
    ensures IsSubsequence(SelectTasks(tasks, selected, from, to), Map(NarrowBy(from, to), tasks))
    ensures forall i :: 0 <= i < |tasks| && NameSelected(selected, tasks[i]) && HasEvents(Narrow(from, to, tasks[i])) ==>
              Narrow(from, to, tasks[i]) in SelectTasks(tasks, selected, from, to)
  {
    var named := Filter(NameTest(selected), tasks);
    var narrowed := Map(NarrowBy(from, to), named);
    FilterIsSubsequence(NameTest(selected), tasks);
    MapPreservesSubsequence(NarrowBy(from, to), named, tasks);
    FilterIsSubsequence(HasEvents, narrowed);
    SubsequenceTransitive(Filter(HasEvents, narrowed), narrowed, Map(NarrowBy(from, to), tasks));
    forall i | 0 <= i < |tasks| && NameSelected(selected, tasks[i]) && HasEvents(Narrow(from, to, tasks[i]))
      ensures Narrow(from, to, tasks[i]) in SelectTasks(tasks, selected, from, to)
    {
      assert NameTest(selected)(tasks[i]);
      assert tasks[i] in named;
      var k :| 0 <= k < |named| && named[k] == tasks[i];
      assert narrowed[k] == Narrow(from, to, tasks[i]);
    }
  }

  /** With no dates and the `'all'` filter, only the lanes that have no events at all disappear. */
  lemma NoFilterKeepsEveryLane(tasks: seq<Task>)
    ensures SelectTasks(tasks, All, None, None) == Filter(HasEvents, tasks)
  {
    FilterKeepsAll(NameTest(All), tasks);
    forall i | 0 <= i < |tasks|
      ensures Narrow(None, None, tasks[i]) == tasks[i]
    {
      FilterKeepsAll(RangeTest(None, None), tasks[i].events);
    }
    assert Map(NarrowBy(None, None), tasks) == tasks;
  }

  /** The index of the first lane named `name`: `Array.prototype.find` on the lane names. */
  function FindTask(tasks: seq<Task>, name: string): (r: Option<nat>)
    ensures r.Some? ==> r.value < |tasks| && tasks[r.value].task == name
    ensures r.Some? ==> forall j :: 0 <= j < r.value ==> tasks[j].task != name
    ensures r.None? ==> forall j :: 0 <= j < |tasks| ==> tasks[j].task != name
  {
    if |tasks| == 0 then None
    else if tasks[0].task == name then Some(0)
    else match FindTask(tasks[1..], name)
      case None => None
      case Some(k) => Some(k + 1)
  }

  function Flip(t: Task): Task
  {
    t.(expanded := !t.expanded)
  }

  /** Lane `j` is the first lane named `name`. */
  predicate IsFirstNamed(tasks: seq<Task>, name: string, j: int)
    requires 0 <= j < |tasks|
  {
    tasks[j].task == name && forall i :: 0 <= i < j ==> tasks[i].task != name
  }

  /**
   The name click: for a valid member, flip the stored flag of the first lane
   whose name is the clicked name; anything else leaves the data as it was.
   */
  function ToggleTask(members: Members, memberId: string, name: string): (r: Members)
    ensures r.Keys == members.Keys
    ensures forall id :: id in members && id != memberId ==> r[id] == members[id]
    ensures !IsMember(members, memberId) ==> r == members
    ensures IsMember(members, memberId) ==> |r[memberId]| == |members[memberId]|
    ensures IsMember(members, memberId) ==>
              forall j :: 0 <= j < |members[memberId]| ==>
                && r[memberId][j].task == members[memberId][j].task
                && r[memberId][j].events == members[memberId][j].events
                && (r[memberId][j].expanded == (members[memberId][j].expanded != IsFirstNamed(members[memberId], name, j)))
  {
    if !IsMember(members, memberId) then members
    else
      var tasks := members[memberId];
      match FindTask(tasks, name)
      case None => members
      case Some(i) => members[memberId := tasks[i := Flip(tasks[i])]]
  }

  /** `FindTask` reads only the lane names. */
  lemma {:induction false} FindTaskReadsNames(a: seq<Task>, b: seq<Task>, name: string)
    requires |a| == |b| && forall j :: 0 <= j < |a| ==> a[j].task == b[j].task
    ensures FindTask(a, name) == FindTask(b, name)
    decreases |a|
  {
    if |a| > 0 {
      FindTaskReadsNames(a[1..], b[1..], name);
    }
  }

  /** Toggling the same name twice restores the stored data. */
  lemma ToggleTwiceRestores(members: Members, memberId: string, name: string)
    ensures ToggleTask(ToggleTask(members, memberId, name), memberId, name) == members
  {
    if IsMember(members, memberId) {
      var tasks := members[memberId];
      match FindTask(tasks, name)
      case None =>
      case Some(i) =>
        var once := tasks[i := Flip(tasks[i])];
        FindTaskReadsNames(once, tasks, name);
        assert once[i := Flip(once[i])] == tasks;
    }
  }

  /** A name that names no stored lane (an event row's name, say) changes nothing. */
  lemma ToggleOtherLabelIsNoOp(members: Members, memberId: string, name: string)
    requires memberId in members ==> forall j :: 0 <= j < |members[memberId]| ==> members[memberId][j].task != name
    ensures ToggleTask(members, memberId, name) == members
  {
  }

  /** What the indicator's click handler leaves behind once the chart has redrawn. */
  datatype Redraw = Redraw(clicked: Task, stored: Members, shown: seq<Task>)

  /**
   The indicator click on shown lane `k`: the handler flips the flag of the
   shallow copy the filter produced, never the stored lane, and the redraw
   filters the stored data afresh.
   */
  function IndicatorClick(members: Members, f: Filters, k: nat): (r: Redraw)
    requires k < |FilterTasks(members, f)|
    ensures r.clicked.expanded != FilterTasks(members, f)[k].expanded
    ensures r.clicked.task == FilterTasks(members, f)[k].task
    ensures r.stored == members
    ensures r.shown == FilterTasks(members, f)
    ensures r.shown[k].expanded != r.clicked.expanded
  {
    var copy := FilterTasks(members, f)[k];
    Redraw(Flip(copy), members, FilterTasks(members, f))
  }

  /**
   One expanded lane, shown with no filters: clicking its indicator yields a
   collapsed copy, while the redrawn lane is still expanded.
   */
  lemma IndicatorClickIsLost()
    ensures var lane := Task("Loan", [Event("Open", 0, 10)], true);
            var r := IndicatorClick(map["m1" := [lane]], Filters("m1", All, None, None), 0);
            && !r.clicked.expanded
            && r.shown == [lane]
            && r.shown[0].expanded
  {
    var lane := Task("Loan", [Event("Open", 0, 10)], true);
    var members := map["m1" := [lane]];
    NoFilterKeepsEveryLane([lane]);
    assert Filter(HasEvents, [lane]) == [lane] by {
      assert HasEvents(lane);
      assert [lane][1..] == [];
    }
    assert FilterTasks(members, Filters("m1", All, None, None)) == [lane];
  }

  function FlipIfNamed(name: string): Task -> Task
  {
    (t: Task) => if t.task == name then Flip(t) else t
  }

  /** Every lane named `name` flipped, the others as they were. */
  function FlipNamed(tasks: seq<Task>, name: string): seq<Task>
  {
    Map(FlipIfNamed(name), tasks)
  }

  predicate UniqueNames(tasks: seq<Task>)
  {
    forall i, j :: 0 <= i < j < |tasks| ==> tasks[i].task != tasks[j].task
  }

  /** Where lane names are unique, toggling a name flips exactly the lanes of that name. */
  lemma ToggleFlipsNamed(members: Members, memberId: string, name: string)
    requires IsMember(members, memberId) && UniqueNames(members[memberId])
    ensures ToggleTask(members, memberId, name)[memberId] == FlipNamed(members[memberId], name)
  {
  }

  /** Filtering does not look at the flag, so it commutes with flipping. */
  lemma SelectCommutesWithFlip(tasks: seq<Task>, selected: string, from: Option<int>, to: Option<int>, name: string)
    ensures SelectTasks(FlipNamed(tasks, name), selected, from, to) == FlipNamed(SelectTasks(tasks, selected, from, to), name)
  {
    var g := FlipIfNamed(name);
    var named := Filter(NameTest(selected), tasks);
    FilterMapCommute(NameTest(selected), NameTest(selected), g, tasks);
    assert Map(NarrowBy(from, to), Map(g, named)) == Map(g, Map(NarrowBy(from, to), named));
    var narrowed := Map(NarrowBy(from, to), named);
    FilterMapCommute(HasEvents, HasEvents, g, narrowed);
  }

  /**
   After a name click on a member with unique lane names, the redrawn lanes are
   the previous ones with that lane's flag flipped: unlike the indicator click,
   the change is visible.
   */
  lemma ToggleThenRedraw(members: Members, f: Filters, name: string)
    requires IsMember(members, f.memberId) && UniqueNames(members[f.memberId])
    ensures FilterTasks(ToggleTask(members, f.memberId, name), f) == FlipNamed(FilterTasks(members, f), name)
  {
    ToggleFlipsNamed(members, f.memberId, name);
    SelectCommutesWithFlip(members[f.memberId], f.taskFilter, f.from, f.to, name);
  }

  /** Every shown lane is the narrowed copy of one of the member's stored lanes. */
  lemma ShownLaneIsStored(members: Members, f: Filters, k: nat)
    requires k < |FilterTasks(members, f)|
    ensures IsMember(members, f.memberId)
    ensures exists j :: 0 <= j < |members[f.memberId]| &&
              FilterTasks(members, f)[k] == Narrow(f.from, f.to, members[f.memberId][j])
  {
    var tasks := members[f.memberId];
    var named := Filter(NameTest(f.taskFilter), tasks);
    var narrowed := Map(NarrowBy(f.from, f.to), named);
    var t := FilterTasks(members, f)[k];
    assert t in FilterTasks(members, f);
    assert t in narrowed;
    var m :| 0 <= m < |named| && narrowed[m] == t;
    assert named[m] in tasks;
    var j :| 0 <= j < |tasks| && tasks[j] == named[m];
    assert t == Narrow(f.from, f.to, tasks[j]);
  }

  /**
   The click as it is evidently meant: toggle the stored lane, as the name
   click does with the clicked lane's name, so that the redraw shows the
   change. The lane flipped is the first stored lane with that name.
   */
  function CorrectedIndicatorClick(members: Members, f: Filters, k: nat): (stored: Members)
    requires k < |FilterTasks(members, f)|
    ensures IsMember(members, f.memberId)
    ensures stored.Keys == members.Keys
    ensures forall id :: id in members && id != f.memberId ==> stored[id] == members[id]
    ensures FindTask(members[f.memberId], FilterTasks(members, f)[k].task).Some?
    ensures var tasks := members[f.memberId];
            var i := FindTask(tasks, FilterTasks(members, f)[k].task).value;
            && |stored[f.memberId]| == |tasks|
            && stored[f.memberId][i] == Flip(tasks[i])
            && forall j :: 0 <= j < |tasks| && j != i ==> stored[f.memberId][j] == tasks[j]
  {
    ShownLaneIsStored(members, f, k);
    ToggleTask(members, f.memberId, FilterTasks(members, f)[k].task)
  }

  /** With unique lane names, the corrected click turns the clicked lane over in the redraw and nothing else. */
  lemma CorrectedClickIsShown(members: Members, f: Filters, k: nat)
    requires k < |FilterTasks(members, f)|
    requires UniqueNames(members[f.memberId])
    ensures var before := FilterTasks(members, f);
            var after := FilterTasks(CorrectedIndicatorClick(members, f, k), f);
            && |after| == |before|
            && after[k] == Flip(before[k])
            && forall j :: 0 <= j < |before| && before[j].task != before[k].task ==> after[j] == before[j]
  {
    ToggleThenRedraw(members, f, FilterTasks(members, f)[k].task);
  }

  /** The date bound 50 hides the early lane, whatever its flag, and keeps the late one whole. */
  lemma LateLaneOnly(early: bool)
    ensures var shown := Task("A", [Event("Open", 100, 110)], false);
            SelectTasks([Task("A", [Event("Open", 0, 10)], early), shown], All, Some(50), None) == [shown]
  {
    var hidden := Task("A", [Event("Open", 0, 10)], early);
    var shown := Task("A", [Event("Open", 100, 110)], false);
    var test := RangeTest(Some(50), None);
    assert Filter(test, hidden.events) == [] by {
      assert !test(hidden.events[0]);
      assert hidden.events[1..] == [];
    }
    assert Filter(test, shown.events) == shown.events by {
      assert test(shown.events[0]);
      assert shown.events[1..] == [];
    }
    FilterKeepsAll(NameTest(All), [hidden, shown]);
    var narrowed := [hidden.(events := []), shown];
    assert Map(NarrowBy(Some(50), None), [hidden, shown]) == narrowed;
    assert narrowed[1..] == [shown];
    assert [shown][1..] == [];
  }

  /**
   With two lanes of the same name, the corrected click toggles the first of
   them even when the date filter hides it: here the shown lane is the second
   lane, the first is flipped, and the redraw looks as before.
   */
  lemma CorrectedClickWithRepeatedName()
    ensures var hidden := Task("A", [Event("Open", 0, 10)], false);
            var shown := Task("A", [Event("Open", 100, 110)], false);
            var members := map["m1" := [hidden, shown]];
            var f := Filters("m1", All, Some(50), None);
            && FilterTasks(members, f) == [shown]
            && CorrectedIndicatorClick(members, f, 0)["m1"] == [Flip(hidden), shown]
            && FilterTasks(CorrectedIndicatorClick(members, f, 0), f) == FilterTasks(members, f)
  {
    var hidden := Task("A", [Event("Open", 0, 10)], false);
    var shown := Task("A", [Event("Open", 100, 110)], false);
    var members := map["m1" := [hidden, shown]];
    var f := Filters("m1", All, Some(50), None);
    LateLaneOnly(false);
    LateLaneOnly(true);
    assert FilterTasks(members, f) == [shown];
    var after := CorrectedIndicatorClick(members, f, 0);
    assert FindTask([hidden, shown], "A") == Some(0);
    assert after["m1"] == [Flip(hidden), shown];
  }
}

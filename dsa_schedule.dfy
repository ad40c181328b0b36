/**
 * The study schedule and the completed-days store.
 *
 * The CSV sheet is a sequence of rows; the LeetCode link table is a map from
 * problem name to URL; the progress file `completed_days.json` is
 * `Option<set<string>>`: `None` while the file does not exist, otherwise the
 * set of day keys (`str(day)`) it lists.
 */
module Schedule {
  import opened Basics

  /** One row of the sheet: the columns Day, Focus, Problem 1, Problem 2 and Problem 3. */
  datatype Row = Row(day: int, focus: string, problem1: string, problem2: string, problem3: string)

  function Problems(r: Row): seq<string>
  {
    [r.problem1, r.problem2, r.problem3]
  }

  // ---------------------------------------------------------------------
  // The progress file
  // ---------------------------------------------------------------------

  /** `load_completed_days`: a missing file reads as the empty set. */
  function Load(file: Option<set<string>>): (r: set<string>)
    ensures file.None? ==> r == {}
    ensures file.Some? ==> r == file.value
  {
    match file
    case None => {}
    case Some(days) => days
  }

  /** What `mark_day_completed(day)` leaves in the file: it always writes. */
  function Mark(file: Option<set<string>>, day: int): (r: Option<set<string>>)
    ensures r.Some?
    ensures Load(r) == Load(file) + {IntToString(day)}
  {
    Some(Load(file) + {IntToString(day)})
  }

  /** What `unmark_day_completed(day)` leaves in the file: it writes only when the key was there. */
  function Unmark(file: Option<set<string>>, day: int): (r: Option<set<string>>)
    ensures Load(r) == Load(file) - {IntToString(day)}
    ensures IntToString(day) !in Load(file) ==> r == file
    ensures r.None? ==> file.None?
  {
    if IntToString(day) in Load(file) then Some(Load(file) - {IntToString(day)}) else file
  }

  /** Marking a day completes that day and no other. */
  lemma MarkCompletesExactlyThatDay(file: Option<set<string>>, day: int, other: int)
    ensures IntToString(other) in Load(Mark(file, day))
            <==> other == day || IntToString(other) in Load(file)
  {
    if IntToString(other) == IntToString(day) {
      IntToStringInjective(other, day);
    }
  }

  /** Marking the same day twice leaves the file as marking it once. */
  lemma MarkIdempotent(file: Option<set<string>>, day: int)
    ensures Mark(Mark(file, day), day) == Mark(file, day)
  {
  }

  /** Unmarking a day that is not completed writes nothing. */
  lemma UnmarkAbsentIsNoWrite(file: Option<set<string>>, day: int)
    requires IntToString(day) !in Load(file)
    ensures Unmark(file, day) == file
  {
  }

  /** Unmarking a day makes exactly that day not completed. */
  lemma UnmarkRemovesExactlyThatDay(file: Option<set<string>>, day: int, other: int)
    ensures IntToString(other) in Load(Unmark(file, day))
            <==> other != day && IntToString(other) in Load(file)
  {
    if IntToString(other) == IntToString(day) {
      IntToStringInjective(other, day);
    }
  }

  /** Mark then unmark restores the completed set whenever the day was not completed before. */
  lemma UnmarkUndoesMark(file: Option<set<string>>, day: int)
    requires IntToString(day) !in Load(file)
    ensures Load(Unmark(Mark(file, day), day)) == Load(file)
  {
  }

  // ---------------------------------------------------------------------
  // Day plans
  // ---------------------------------------------------------------------

  /** `df[df["Day"] == day].iloc[0]`: the index of the first row for `day`, if any. */
  function FindRow(rows: seq<Row>, day: int): (r: Option<nat>)
    ensures r.None? <==> forall k :: 0 <= k < |rows| ==> rows[k].day != day
    ensures r.Some? ==> r.value < |rows| && rows[r.value].day == day
    ensures r.Some? ==> forall k :: 0 <= k < r.value ==> rows[k].day != day
  {
    if rows == [] then None
    else if rows[0].day == day then Some(0)
    else match FindRow(rows[1..], day)
      case None => None
      case Some(i) => Some(i + 1)
  }

  function NotFoundMessage(day: int): string
  {
    "⚠️ Day " + IntToString(day) + " not found in the schedule."
  }

  function PlanHeader(r: Row): string
  {
    "📅 Day " + IntToString(r.day) + " — Focus: " + r.focus + "\n"
  }

  /** `LEETCODE_PROBLEMS.get(name)` when the URL it gives is truthy (present and non-empty). */
  function LinkFor(links: map<string, string>, name: string): Option<string>
  {
    if name in links && links[name] != "" then Some(links[name]) else None
  }

  /** The line for problem number `i`: a Markdown link when a URL is known, else the bare name. */
  function ProblemLine(i: nat, name: string, links: map<string, string>): string
  {
    "- Problem " + NatToString(i) + ": "
    + (match LinkFor(links, name)
       case Some(url) => "[" + name + "](" + url + ")"
       case None => name)
    + "\n"
  }

  /** `head` followed by the lines for problems 1..|ps|, in order: the text the loop
      of `get_day_plan` has built after `|ps|` problems. */
  function PlanLines(head: string, ps: seq<string>, links: map<string, string>): string
    decreases |ps|
  {
    if ps == [] then head
    else PlanLines(head, ps[..|ps| - 1], links) + ProblemLine(|ps|, ps[|ps| - 1], links)
  }

  /** One more problem: its line is appended after the text so far. */
  lemma PlanLinesPrefixStep(head: string, ps: seq<string>, i: nat, links: map<string, string>)
    requires i < |ps|
    ensures PlanLines(head, ps[..i + 1], links) == PlanLines(head, ps[..i], links) + ProblemLine(i + 1, ps[i], links)
  {
    assert ps[..i + 1][..i] == ps[..i];
  }

  /** The lines only ever extend the head. */
  lemma {:induction false} PlanLinesKeepsHead(head: string, ps: seq<string>, links: map<string, string>)
    ensures |PlanLines(head, ps, links)| >= |head|
    ensures PlanLines(head, ps, links)[..|head|] == head
    decreases |ps|
  {
    if ps != [] {
      PlanLinesKeepsHead(head, ps[..|ps| - 1], links);
    }
  }

  /** The plan text for one row: the header and the three problem lines. */
  function RowPlan(r: Row, links: map<string, string>): string
  {
    PlanLines(PlanHeader(r), Problems(r), links)
  }

  /** `get_day_plan(day)` as a value. */
  function DayPlanText(rows: seq<Row>, links: map<string, string>, day: int): (r: string)
    ensures FindRow(rows, day).None? ==> r == NotFoundMessage(day)
    ensures FindRow(rows, day).Some? ==>
              var head := PlanHeader(rows[FindRow(rows, day).value]);
              |r| >= |head| && r[..|head|] == head
  {
    match FindRow(rows, day)
    case None => NotFoundMessage(day)
    case Some(i) =>
      PlanLinesKeepsHead(PlanHeader(rows[i]), Problems(rows[i]), links);
      RowPlan(rows[i], links)
  }

  /** A row's plan is its header followed by exactly three numbered problem lines. */
  lemma RowPlanLayout(r: Row, links: map<string, string>)
    ensures RowPlan(r, links)
            == PlanHeader(r) + ProblemLine(1, r.problem1, links)
               + ProblemLine(2, r.problem2, links) + ProblemLine(3, r.problem3, links)
  {
    var ps := Problems(r);
    assert ps[..0] == [];
    PlanLinesPrefixStep(PlanHeader(r), ps, 0, links);
    PlanLinesPrefixStep(PlanHeader(r), ps, 1, links);
    PlanLinesPrefixStep(PlanHeader(r), ps, 2, links);
    assert ps[..3] == ps;
  }

  /** A day with no row gets the not-found message; a day with a row gets the first
      such row's header and exactly three numbered problem lines. */
  lemma DayPlanLayout(rows: seq<Row>, links: map<string, string>, day: int)
    ensures FindRow(rows, day).None? ==> DayPlanText(rows, links, day) == NotFoundMessage(day)
    ensures FindRow(rows, day).Some? ==>
      var r := rows[FindRow(rows, day).value];
      DayPlanText(rows, links, day)
        == PlanHeader(r) + ProblemLine(1, r.problem1, links)
           + ProblemLine(2, r.problem2, links) + ProblemLine(3, r.problem3, links)
  {
    if FindRow(rows, day).Some? {
      RowPlanLayout(rows[FindRow(rows, day).value], links);
    }
  }

  /** The line is the Markdown link to `url` exactly when the table gives `name` that non-empty URL. */
  lemma ProblemLineLinksIff(i: nat, name: string, url: string, links: map<string, string>)
    ensures ProblemLine(i, name, links) == "- Problem " + NatToString(i) + ": [" + name + "](" + url + ")\n"
            <==> name in links && links[name] == url && url != ""
  {
    var prefix := "- Problem " + NatToString(i) + ": ";
    var linked := prefix + "[" + name + "](" + url + ")\n";
    if ProblemLine(i, name, links) == linked {
      match LinkFor(links, name)
      case None =>
        // the bare line is shorter than any link line
      case Some(u) =>
        var mid := "[" + name + "](";
        var head := prefix + mid;
        var line := ProblemLine(i, name, links);
        assert line == head + (u + ")\n");
        assert linked == head + (url + ")\n");
        assert line[|head|..] == u + ")\n";
        assert linked[|head|..] == url + ")\n";
        assert |u| == |url|;
        assert u == (u + ")\n")[..|u|];
        assert url == (url + ")\n")[..|url|];
    }
  }

  // ---------------------------------------------------------------------
  // Next day
  // ---------------------------------------------------------------------

  const AllDoneMessage: string := "🎉" + " You’ve completed all days in your DSA schedule!"

  /** The index of the first row, in sheet order, whose day key is not in `done`. */
  function FirstPending(rows: seq<Row>, done: set<string>): (r: Option<nat>)
    ensures r.None? <==> forall k :: 0 <= k < |rows| ==> IntToString(rows[k].day) in done
    ensures r.Some? ==> r.value < |rows| && IntToString(rows[r.value].day) !in done
    ensures r.Some? ==> forall k :: 0 <= k < r.value ==> IntToString(rows[k].day) in done
  {
    if rows == [] then None
    else if IntToString(rows[0].day) !in done then Some(0)
    else match FirstPending(rows[1..], done)
      case None => None
      case Some(i) => Some(i + 1)
  }

  /** A row whose day is pending, after rows that are all completed, is the first pending one. */
  lemma FirstPendingAt(rows: seq<Row>, done: set<string>, i: nat)
    requires i < |rows| && IntToString(rows[i].day) !in done
    requires forall k :: 0 <= k < i ==> IntToString(rows[k].day) in done
    ensures FirstPending(rows, done) == Some(i)
  {
  }

  /** `get_next_day_plan()` as a value. */
  function NextDayPlanText(rows: seq<Row>, links: map<string, string>, done: set<string>): (r: string)
    ensures FirstPending(rows, done).None? ==> r == AllDoneMessage
    ensures FirstPending(rows, done).Some? ==> r == RowPlan(rows[FirstPending(rows, done).value], links)
  {
    match FirstPending(rows, done)
    case None => AllDoneMessage
    case Some(i) => DayPlanText(rows, links, rows[i].day)
  }

  /**
   * The next-day plan is the plan of the first pending row itself: no earlier
   * row can carry the same day, since every earlier row is completed.
   */
  lemma NextPlanIsFirstPendingRow(rows: seq<Row>, links: map<string, string>, done: set<string>)
    requires FirstPending(rows, done).Some?
    ensures NextDayPlanText(rows, links, done) == RowPlan(rows[FirstPending(rows, done).value], links)
  {
    var i := FirstPending(rows, done).value;
    var d := rows[i].day;
    var j := FindRow(rows, d).value;
    assert j == i;
    assert DayPlanText(rows, links, d) == RowPlan(rows[j], links);
  }

  /** Once the first pending day is completed, the next plan moves strictly further down the sheet. */
  lemma NextPlanAdvances(rows: seq<Row>, done: set<string>)
    requires FirstPending(rows, done).Some?
    ensures var i := FirstPending(rows, done).value;
            var after := FirstPending(rows, done + {IntToString(rows[i].day)});
            after.None? || after.value > i
  {
  }

  /** With every row's day completed the celebration message is returned. */
  lemma AllCompletedCelebrates(rows: seq<Row>, links: map<string, string>, done: set<string>)
    requires forall k :: 0 <= k < |rows| ==> IntToString(rows[k].day) in done
    ensures NextDayPlanText(rows, links, done) == AllDoneMessage
  {
  }

  // ---------------------------------------------------------------------
  // Completed topics
  // ---------------------------------------------------------------------

  const NoTopicsMessage: string := "❗ You haven't completed any valid topics yet. Let’s start solving!"

  /** A row contributes its stripped focus when its day is completed and the focus is a real topic. */
  predicate CountsAsTopic(r: Row, done: set<string>)
  {
    && IntToString(r.day) in done
    && Strip(r.focus) != ""
    && Lower(Strip(r.focus)) != "(missing topic)"
  }

  /** Reference definition of the topics `get_all_completed_topics` collects. */
  function CompletedTopicSet(rows: seq<Row>, done: set<string>): (r: set<string>)
    ensures forall t :: t in r ==> t != "" && Lower(t) != "(missing topic)"
    ensures done == {} ==> r == {}
  {
    set r | r in rows && CountsAsTopic(r, done) :: Strip(r.focus)
  }

  /** Adding one row to the sheet adds at most that row's topic. */
  lemma CompletedTopicSetSnoc(rows: seq<Row>, r: Row, done: set<string>)
    ensures CompletedTopicSet(rows + [r], done)
            == CompletedTopicSet(rows, done) + (if CountsAsTopic(r, done) then {Strip(r.focus)} else {})
  {
    var lhs := CompletedTopicSet(rows + [r], done);
    var rhs := CompletedTopicSet(rows, done) + (if CountsAsTopic(r, done) then {Strip(r.focus)} else {});
    assert lhs <= rhs by {
      forall t | t in lhs ensures t in rhs {
        var x :| x in rows + [r] && CountsAsTopic(x, done) && t == Strip(x.focus);
        if x != r {
          assert x in rows;
        }
      }
    }
    assert rhs <= lhs by {
      forall t | t in rhs ensures t in lhs {
        if t in CompletedTopicSet(rows, done) {
          var x :| x in rows && CountsAsTopic(x, done) && t == Strip(x.focus);
          assert x in rows + [r];
        } else {
          assert r in rows + [r];
        }
      }
    }
  }

  /** One more row of a sheet: the topic set grows by that row's topic, if it counts. */
  lemma TopicsPrefixStep(rows: seq<Row>, i: nat, done: set<string>)
    requires i < |rows|
    ensures CompletedTopicSet(rows[..i + 1], done)
            == CompletedTopicSet(rows[..i], done) + (if CountsAsTopic(rows[i], done) then {Strip(rows[i].focus)} else {})
  {
    assert rows[..i + 1] == rows[..i] + [rows[i]];
    CompletedTopicSetSnoc(rows[..i], rows[i], done);
  }

  /** `"\n".join(f"- {topic}" for topic in ts)`. */
  function BulletList(ts: seq<string>): (r: string)
    ensures r == [] <==> ts == []
    ensures ts != [] ==> |r| >= 2 && r[..2] == "- "
  {
    if ts == [] then ""
    else if |ts| == 1 then "- " + ts[0]
    else "- " + ts[0] + "\n" + BulletList(ts[1..])
  }

  function TopicsSummary(ts: seq<string>): (r: string)
    ensures |r| > |BulletList(ts)| && r[|r| - |BulletList(ts)|..] == BulletList(ts)
  {
    "You've completed " + NatToString(|ts|) + " topics so far. Keep going! 🚀\n\n"
    + "Here are your completed topics:\n\n"
    + BulletList(ts)
  }

  // ---------------------------------------------------------------------
  // The tracker: sheet, link table and progress file
  // ---------------------------------------------------------------------

  class Tracker {
    const schedule: seq<Row>
    const links: map<string, string>
    var stored: Option<set<string>>

    constructor (schedule: seq<Row>, links: map<string, string>, stored: Option<set<string>>)
      ensures this.schedule == schedule && this.links == links && this.stored == stored
    {
      this.schedule := schedule;
      this.links := links;
      this.stored := stored;
    }

    /** `mark_day_completed(day)`: read the set, add `str(day)`, write the whole set back. */
    method MarkDayCompleted(day: int)
      modifies this
      ensures stored == Mark(old(stored), day)
      ensures Load(stored) == old(Load(stored)) + {IntToString(day)}
    {
      var completed := Load(stored);
      completed := completed + {IntToString(day)};
      stored := Some(completed);
    }

    /** `unmark_day_completed(day)`: remove `str(day)` and write back, only if it was there. */
    method UnmarkDayCompleted(day: int)
      modifies this
      ensures stored == Unmark(old(stored), day)
      ensures Load(stored) == old(Load(stored)) - {IntToString(day)}
      ensures IntToString(day) !in old(Load(stored)) ==> stored == old(stored)
    {
      var completed := Load(stored);
      var key := IntToString(day);
      if key in completed {
        completed := completed - {key};
        stored := Some(completed);
      }
    }

    /** `clear_progress()`: delete the progress file, so every later load is empty. */
    method ClearProgress()
      modifies this
      ensures stored == None
      ensures Load(stored) == {}
    {
      if stored.Some? {
        stored := None;
      }
    }

    /** `get_day_plan(day)`: the header, then one line per problem appended in a loop. */
    method GetDayPlan(day: int) returns (text: string)
      ensures text == DayPlanText(schedule, links, day)
      ensures FindRow(schedule, day).None? ==> text == NotFoundMessage(day)
    {
      var found := FindRow(schedule, day);
      if found.None? {
        return NotFoundMessage(day);
      }
      var row := schedule[found.value];
      var problems := Problems(row);
      text := PlanHeader(row);
      var i := 0;
      while i < |problems|
        invariant 0 <= i <= |problems|
        invariant text == PlanLines(PlanHeader(row), problems[..i], links)
      {
        PlanLinesPrefixStep(PlanHeader(row), problems, i, links);
        text := text + ProblemLine(i + 1, problems[i], links);
        i := i + 1;
      }
      assert problems[..i] == problems;
    }

    /** `get_next_day_plan()`: scan the sheet in order and plan the first day not completed. */
    method GetNextDayPlan() returns (text: string)
      ensures text == NextDayPlanText(schedule, links, Load(stored))
    {
      var completed := Load(stored);
      var i := 0;
      while i < |schedule|
        invariant 0 <= i <= |schedule|
        invariant forall k :: 0 <= k < i ==> IntToString(schedule[k].day) in completed
      {
        var key := IntToString(schedule[i].day);
        if key !in completed {
          FirstPendingAt(schedule, completed, i);
          text := GetDayPlan(schedule[i].day);
          return;
        }
        i := i + 1;
      }
      text := AllDoneMessage;
    }

    /**
     * `get_all_completed_topics()`: collect the topics of completed rows into a
     * set, then return them sorted, with the summary text.
     */
    method GetAllCompletedTopics() returns (summary: string, topics: seq<string>)
      ensures StrictlySorted(topics)
      ensures forall t :: t in topics <==> t in CompletedTopicSet(schedule, Load(stored))
      ensures |topics| == |CompletedTopicSet(schedule, Load(stored))|
      ensures topics == [] ==> summary == NoTopicsMessage
      ensures topics != [] ==> summary == TopicsSummary(topics)
    {
      var completed := Load(stored);
      var found: set<string> := {};
      var i := 0;
      while i < |schedule|
        invariant 0 <= i <= |schedule|
        invariant found == CompletedTopicSet(schedule[..i], completed)
      {
        var row := schedule[i];
        var topic := Strip(row.focus);
        TopicsPrefixStep(schedule, i, completed);
        if IntToString(row.day) in completed && topic != "" && Lower(topic) != "(missing topic)" {
          found := found + {topic};
        }
        i := i + 1;
      }
      assert schedule[..i] == schedule;
      if found == {} {
        return NoTopicsMessage, [];
      }
      topics := SortSet(found);
      summary := TopicsSummary(topics);
    }
  }
}

/**
 * The rule-based intent dispatcher: an ordered, first-match-wins chain of
 * substring tests on the lower-cased message, the `day (\d+)` extraction, and
 * the agent entry point that falls back to a fixed mock reply.
 */
module Dispatcher {
  import opened Basics
  import opened Schedule

  /** Which rule of the chain fires, with the day it extracted where it needs one. */
  datatype Intent =
    | NextPlan          // "today" or "next"
    | MarkDay(day: nat) // "day" and "mark", a day found
    | MarkHelp          // "day" and "mark", no day found
    | ShowDay(day: nat) // "day" and one of "problem"/"plan"/"focus", a day found
    | ShowHelp          // the same, no day found
    | WhatPlan          // "what" and "plan"
    | NoMatch           // nothing fired: the caller falls back

  // ---------------------------------------------------------------------
  // `re.search(r"day (\d+)", lower)`
  // ---------------------------------------------------------------------

  /** The pattern `day (\d+)` can start at index `i`: "day", one space, at least one digit. */
  predicate DayMatchAt(s: string, i: nat)
  {
    i + 5 <= |s| && s[i..i + 4] == "day " && IsDigit(s[i + 4])
  }

  /** The leftmost index at or after `from` where the pattern starts. */
  function LeftmostMatchFrom(s: string, from: nat): (r: Option<nat>)
    ensures r.None? <==> forall i: nat :: from <= i ==> !DayMatchAt(s, i)
    ensures r.Some? ==> from <= r.value && DayMatchAt(s, r.value)
    ensures r.Some? ==> forall i: nat :: from <= i < r.value ==> !DayMatchAt(s, i)
    decreases |s| - from
  {
    if from + 5 > |s| then None
    else if DayMatchAt(s, from) then Some(from)
    else LeftmostMatchFrom(s, from + 1)
  }

  /** The end of the maximal run of digits starting at `j` (what the greedy `\d+` takes). */
  function DigitRunEnd(s: string, j: nat): (e: nat)
    requires j <= |s|
    ensures j <= e <= |s|
    ensures forall k :: j <= k < e ==> IsDigit(s[k])
    ensures e == |s| || !IsDigit(s[e])
    decreases |s| - j
  {
    if j < |s| && IsDigit(s[j]) then DigitRunEnd(s, j + 1) else j
  }

  /** `int(match.group(1))` of the first match, or `None` when the pattern does not occur. */
  function ExtractDay(s: string): (r: Option<nat>)
    ensures r.None? <==> forall i: nat :: !DayMatchAt(s, i)
  {
    match LeftmostMatchFrom(s, 0)
    case None => None
    case Some(i) =>
      var e := DigitRunEnd(s, i + 4);
      Some(ParseDigits(s[i + 4..e]))
  }

  /** A found day is the value of the whole digit run after the leftmost "day ". */
  lemma ExtractDayIsLeftmost(s: string, i: nat)
    requires DayMatchAt(s, i)
    requires forall k: nat :: k < i ==> !DayMatchAt(s, k)
    ensures ExtractDay(s) == Some(ParseDigits(s[i + 4..DigitRunEnd(s, i + 4)]))
  {
    var m := LeftmostMatchFrom(s, 0);
    assert m.Some? && m.value <= i;
  }

  /** Whenever a day is extracted the text contains "day". */
  lemma ExtractedDayHasDay(s: string)
    requires ExtractDay(s).Some?
    ensures Contains(s, "day")
  {
    var i := LeftmostMatchFrom(s, 0).value;
    assert s[i..i + 3] == s[i..i + 4][..3];
    ContainsAt(s, "day", i);
  }

  /** Only the leftmost match counts: the second day in the message is ignored. */
  lemma ExtractFirstMatchOnly(a: string)
    requires a == "mark day 12 and day 3"
    ensures ExtractDay(a) == Some(12)
  {
    assert DayMatchAt(a, 5);
    forall k: nat | k < 5 ensures !DayMatchAt(a, k) {
      assert a[k] != 'd' && a[k..k + 4][0] == a[k];
    }
    assert IsDigit(a[9]) && IsDigit(a[10]) && !IsDigit(a[11]);
    assert DigitRunEnd(a, 11) == 11;
    assert DigitRunEnd(a, 9) == 11;
    ExtractDayIsLeftmost(a, 5);
    assert a[9..11] == "12";
    assert "12"[..1] == "1";
  }

  /** The digits are read as a decimal number, so leading zeros are dropped. */
  lemma ExtractLeadingZeros(b: string)
    requires b == "day 007"
    ensures ExtractDay(b) == Some(7)
  {
    assert DayMatchAt(b, 0);
    assert DigitRunEnd(b, 4) == 7;
    ExtractDayIsLeftmost(b, 0);
    assert b[4..7] == "007";
    assert "007"[..2] == "00" && "00"[..1] == "0";
  }

  /** Without exactly one space between "day" and the digits nothing is extracted. */
  lemma ExtractNeedsOneSpace()
    ensures ExtractDay("day2") == None
    ensures ExtractDay("day  2") == None
  {
    var c := "day  2";
    forall i: nat ensures !DayMatchAt(c, i) {
      if i == 0 {
        assert c[4] == ' ';
      } else if i == 1 {
        assert c[1..5][0] == 'a';
      }
    }
  }

  // ---------------------------------------------------------------------
  // The rule chain
  // ---------------------------------------------------------------------

  /** `interpret_input`'s choice of rule, evaluated on `user_input.lower()`, first match wins. */
  function Classify(userInput: string): (r: Intent)
    ensures r == NextPlan <==> Contains(Lower(userInput), "today") || Contains(Lower(userInput), "next")
    ensures r.MarkDay? || r.MarkHelp? ==> Contains(Lower(userInput), "day") && Contains(Lower(userInput), "mark")
    ensures r.ShowDay? || r.ShowHelp? ==> Contains(Lower(userInput), "day")
    ensures r.MarkDay? || r.ShowDay? ==> ExtractDay(Lower(userInput)) == Some(r.day)
    ensures r.MarkHelp? || r.ShowHelp? ==> ExtractDay(Lower(userInput)).None?
    ensures r == WhatPlan ==> Contains(Lower(userInput), "what") && Contains(Lower(userInput), "plan")
  {
    var lower := Lower(userInput);
    if Contains(lower, "today") || Contains(lower, "next") then NextPlan
    else if Contains(lower, "day") && Contains(lower, "mark") then
      match ExtractDay(lower)
      case Some(n) => MarkDay(n)
      case None => MarkHelp
    else if Contains(lower, "day")
            && (Contains(lower, "problem") || Contains(lower, "plan") || Contains(lower, "focus")) then
      match ExtractDay(lower)
      case Some(n) => ShowDay(n)
      case None => ShowHelp
    else if Contains(lower, "what") && Contains(lower, "plan") then WhatPlan
    else NoMatch
  }

  /** The choice depends only on the lower-cased message. */
  lemma ClassifyDependsOnlyOnLower(userInput: string)
    ensures Classify(Lower(userInput)) == Classify(userInput)
  {
    LowerIdempotent(userInput);
  }

  /** Any message containing "today" or "next" asks for the next plan, whatever else it says. */
  lemma TodayOrNextWins(userInput: string)
    requires Contains(Lower(userInput), "today") || Contains(Lower(userInput), "next")
    ensures Classify(userInput) == NextPlan
  {
  }

  /** The "what ... plan" rule can fire only when "day" is absent. */
  lemma WhatPlanOnlyWithoutDay(userInput: string)
    requires Classify(userInput) == WhatPlan
    ensures !Contains(Lower(userInput), "day")
  {
  }

  lemma ExtractFromUnmarkPhrase(s: string)
    requires s == "unmark day 2"
    ensures ExtractDay(s) == Some(2)
  {
    assert s[7..11] == "day ";
    assert DayMatchAt(s, 7);
    forall k: nat | k < 7 ensures !DayMatchAt(s, k) {
      assert s[k] != 'd' && s[k..k + 4][0] == s[k];
    }
    ExtractDayIsLeftmost(s, 7);
    assert DigitRunEnd(s, 11) == 12;
    assert s[11..12] == "2";
  }

  /** Rule 2: unless rule 1 fired, "day" and "mark" mark the first extracted day, or ask for one. */
  lemma MarkRule(userInput: string)
    requires !Contains(Lower(userInput), "today") && !Contains(Lower(userInput), "next")
    requires Contains(Lower(userInput), "day") && Contains(Lower(userInput), "mark")
    ensures ExtractDay(Lower(userInput)).Some? ==> Classify(userInput) == MarkDay(ExtractDay(Lower(userInput)).value)
    ensures ExtractDay(Lower(userInput)).None? ==> Classify(userInput) == MarkHelp
  {
  }

  /** Rule 3: otherwise "day" with "problem", "plan" or "focus" shows the first extracted day, or asks for one. */
  lemma ShowRule(userInput: string)
    requires !Contains(Lower(userInput), "today") && !Contains(Lower(userInput), "next")
    requires !Contains(Lower(userInput), "mark") && Contains(Lower(userInput), "day")
    requires Contains(Lower(userInput), "problem") || Contains(Lower(userInput), "plan")
             || Contains(Lower(userInput), "focus")
    ensures ExtractDay(Lower(userInput)).Some? ==> Classify(userInput) == ShowDay(ExtractDay(Lower(userInput)).value)
    ensures ExtractDay(Lower(userInput)).None? ==> Classify(userInput) == ShowHelp
  {
  }

  lemma UnmarkPhraseWords(s: string)
    requires s == "unmark day 2"
    ensures Lower(s) == s
    ensures !Contains(s, "today") && !Contains(s, "next")
  {
    assert forall k :: 0 <= k < |s| ==> !('A' <= s[k] <= 'Z');
    LowerWithoutCapitals(s);
    ContainsIffOccurs(s, "today");
    forall i ensures !OccursAt(s, "today", i) {
      if 0 <= i && i + 5 <= |s| {
        assert s[i..i + 5][0] == s[i];
      }
    }
    ContainsIffOccurs(s, "next");
    forall i ensures !OccursAt(s, "next", i) {
      if 0 <= i && i + 4 <= |s| {
        assert s[i..i + 4][0] == s[i] && s[i..i + 4][1] == s[i + 1];
      }
    }
  }

  lemma UnmarkPhraseHasDayAndMark(s: string)
    requires s == "unmark day 2"
    ensures Contains(s, "day") && Contains(s, "mark")
  {
    assert s[7..10] == "day";
    ContainsAt(s, "day", 7);
    assert s[2..6] == "mark";
    ContainsAt(s, "mark", 2);
  }

  /** Substring matching: "unmark day 2" contains "mark", so it marks day 2. */
  lemma UnmarkPhraseMarks(s: string)
    requires s == "unmark day 2"
    ensures Classify(s) == MarkDay(2)
  {
    UnmarkPhraseWords(s);
    UnmarkPhraseHasDayAndMark(s);
    ExtractFromUnmarkPhrase(s);
    MarkRule(s);
  }

  // ---------------------------------------------------------------------
  // Replies
  // ---------------------------------------------------------------------

  const MarkHelpMessage: string := "❓ Couldn't extract which day to mark. Try 'Mark Day 3 as done'."
  const ShowHelpMessage: string := "❓ Couldn't find which day you want. Try 'Show Day 4’s plan'."
  const MockResponse: string := "This is a mock response"

  function MarkedMessage(day: nat): string
  {
    "✅ Day " + NatToString(day) + " marked as completed."
  }

  /** What `interpret_input` returns for a rule, given the sheet, the links and the completed set before the call. */
  function Reply(intent: Intent, rows: seq<Row>, links: map<string, string>, done: set<string>)
    : (r: Option<string>)
    ensures r.None? <==> intent == NoMatch
    ensures intent.ShowDay? && FindRow(rows, intent.day).None? ==> r == Some(NotFoundMessage(intent.day))
  {
    match intent
    case NextPlan => Some(NextDayPlanText(rows, links, done))
    case MarkDay(n) => Some(MarkedMessage(n))
    case MarkHelp => Some(MarkHelpMessage)
    case ShowDay(n) => Some(DayPlanText(rows, links, n))
    case ShowHelp => Some(ShowHelpMessage)
    case WhatPlan => Some(NextDayPlanText(rows, links, done))
    case NoMatch => None
  }

  /** What the completed-days file holds after a rule ran: only the mark rule writes it. */
  function StoredAfter(intent: Intent, file: Option<set<string>>): (r: Option<set<string>>)
    ensures !intent.MarkDay? ==> r == file
    ensures intent.MarkDay? ==> Load(r) == Load(file) + {IntToString(intent.day)}
  {
    match intent
    case MarkDay(n) => Mark(file, n)
    case _ => file
  }

  /** `dsa_agent`'s choice between a structured reply (if truthy) and the mock reply. */
  function AgentText(reply: Option<string>): (r: string)
    ensures r != []
    ensures reply.None? ==> r == MockResponse
    ensures reply.Some? && reply.value != "" ==> r == reply.value
  {
    if reply.Some? && reply.value != "" then reply.value else MockResponse
  }

  /** Every day plan starts with the calendar or the warning sign. */
  lemma DayPlanTextHead(rows: seq<Row>, links: map<string, string>, day: int)
    ensures DayPlanText(rows, links, day) != []
    ensures DayPlanText(rows, links, day)[0] in {'📅', '⚠'}
  {
    match FindRow(rows, day)
    case None =>
      assert NotFoundMessage(day) == "⚠" + ("️ Day " + IntToString(day) + " not found in the schedule.");
    case Some(i) =>
      var r := rows[i];
      PlanLinesKeepsHead(PlanHeader(r), Problems(r), links);
      assert PlanHeader(r) == "📅" + (" Day " + IntToString(r.day) + " — Focus: " + r.focus + "\n");
      assert RowPlan(r, links)[0] == PlanHeader(r)[0];
  }

  /** Every structured reply is a non-empty text that differs from the mock reply. */
  lemma StructuredReplyIsNotMock(intent: Intent, rows: seq<Row>, links: map<string, string>, done: set<string>)
    requires intent != NoMatch
    ensures Reply(intent, rows, links, done).Some?
    ensures Reply(intent, rows, links, done).value != ""
    ensures Reply(intent, rows, links, done).value != MockResponse
  {
    var text := Reply(intent, rows, links, done).value;
    assert MockResponse[0] == 'T';
    match intent
    case NextPlan =>
      NextPlanHead(rows, links, done);
    case WhatPlan =>
      NextPlanHead(rows, links, done);
    case ShowDay(n) =>
      DayPlanTextHead(rows, links, n);
    case MarkDay(n) =>
      assert text == "✅" + (" Day " + NatToString(n) + " marked as completed.");
    case MarkHelp =>
    case ShowHelp =>
  }

  lemma NextPlanHead(rows: seq<Row>, links: map<string, string>, done: set<string>)
    ensures NextDayPlanText(rows, links, done) != []
    ensures NextDayPlanText(rows, links, done)[0] in {'📅', '⚠', '🎉'}
  {
    match FirstPending(rows, done)
    case None =>
    case Some(i) =>
      DayPlanTextHead(rows, links, rows[i].day);
  }

  /** The agent answers with the mock reply exactly when no rule fired. */
  lemma MockIffNoMatch(userInput: string, rows: seq<Row>, links: map<string, string>, done: set<string>)
    ensures AgentText(Reply(Classify(userInput), rows, links, done)) == MockResponse
            <==> Classify(userInput) == NoMatch
  {
    if Classify(userInput) != NoMatch {
      StructuredReplyIsNotMock(Classify(userInput), rows, links, done);
    }
  }

  /** Only the mark rule changes what the progress file holds. */
  lemma OnlyMarkWrites(intent: Intent, file: Option<set<string>>)
    requires StoredAfter(intent, file) != file
    ensures intent.MarkDay?
  {
  }

  // ---------------------------------------------------------------------
  // The entry points
  // ---------------------------------------------------------------------

  /**
   * `interpret_input(user_input)`: run the rule the chain selects. Only the
   * mark rule changes the tracker's state, and it marks exactly the extracted day.
   */
  method InterpretInput(t: Tracker, userInput: string) returns (reply: Option<string>)
    modifies t
    ensures reply == Reply(Classify(userInput), t.schedule, t.links, old(Load(t.stored)))
    ensures t.stored == StoredAfter(Classify(userInput), old(t.stored))
  {
    match Classify(userInput)
    case NextPlan =>
      var text := t.GetNextDayPlan();
      reply := Some(text);
    case MarkDay(n) =>
      t.MarkDayCompleted(n);
      reply := Some(MarkedMessage(n));
    case MarkHelp =>
      reply := Some(MarkHelpMessage);
    case ShowDay(n) =>
      var text := t.GetDayPlan(n);
      reply := Some(text);
    case ShowHelp =>
      reply := Some(ShowHelpMessage);
    case WhatPlan =>
      var text := t.GetNextDayPlan();
      reply := Some(text);
    case NoMatch =>
      reply := None;
  }

  /** `dsa_agent(user_input)`: the structured reply, or the fixed mock reply when no rule fired. */
  method DsaAgent(t: Tracker, userInput: string) returns (text: string)
    modifies t
    ensures text == AgentText(Reply(Classify(userInput), t.schedule, t.links, old(Load(t.stored))))
    ensures text == MockResponse <==> Classify(userInput) == NoMatch
    ensures t.stored == StoredAfter(Classify(userInput), old(t.stored))
  {
    var structured := InterpretInput(t, userInput);
    MockIffNoMatch(userInput, t.schedule, t.links, old(Load(t.stored)));
    if structured.Some? && structured.value != "" {
      return structured.value;
    }
    return MockResponse;
  }
}

# DSA progress tracker — a verified model of its rule-based core

This project models the deterministic core of a study-schedule chatbot. The chatbot keeps a
multi-day data-structures-and-algorithms schedule (one row per day: a focus topic and three
problems) and a set of completed days. It has two separate entry points:

- `dsa_agent` answers a free-text message with a first-match-wins chain of keyword rules, one
  of which marks a day completed. When no rule fires it returns a fixed mock reply. This path
  never calls a language model and never writes the session log.
- `simple_agent` sends the message to a language-model endpoint with a coaching persona. It
  wraps the outcome in a `{status, message, snackbar?}` envelope and, when it is given a
  session id, appends the exchange to that session's in-memory log.

The project has five modules, one per source file, plus a module of shared string facts:

- `Basics` (`basics.dfy`) holds the string primitives the core uses, with Python's meaning:
  - `lower()`/`upper()` on ASCII letters;
  - substring containment (`in`);
  - `strip()` with Python's whitespace set;
  - `str()` and `int()` on decimal numerals;
  - code-point string order and `sorted()` of a set of strings.
- `Schedule` (`dsa_schedule.dfy`) covers the schedule rows, the link table and the progress
  file `completed_days.json`.
  - The file is a field `stored: Option<set<string>>` of class `Tracker`. `None` means the
    file does not exist.
  - `mark`/`unmark`/`clear` are methods that change that field.
  - `get_day_plan`, `get_next_day_plan` and `get_all_completed_topics` are methods with
    loops. Each is proved against a specification function.
- `Dispatcher` (`dsa_agent.dfy`) covers the ordered rule chain of `interpret_input`, the
  `re.search(r"day (\d+)")` extraction and `dsa_agent`'s mock fallback.
- `Logger` (`logger.dfy`) covers the in-memory `session_memory` map as class `SessionStore`,
  and the decision of `persist_session_to_mongo`.
- `LlmFallback` (`simple_agent.dfy`) covers persona selection, the chat request's message
  list, the mapping from call outcome to `{status, message, snackbar?}` envelope, and the
  logging discipline of `simple_agent`.

Facts about the code that the model makes explicit:

- The chain has four rules: today/next, mark, show day, and what-plan. Matching is by
  substring, so "unmark day 2" and "mark day 2 as not done" both mark day 2
  (`Dispatcher.UnmarkPhraseMarks`).
- Only the leftmost `day` + one space + digits is read. "day2" and "day  2" give no day.
- Mark then unmark restores the completed set only when the day was not already completed
  (`Schedule.UnmarkUndoesMark`).
- Every plan has exactly three problem lines (`Schedule.RowPlanLayout`).
- A problem is a Markdown link only when its URL is non-empty: the code tests `if url:`
  (`Schedule.ProblemLineLinksIff`).

## Model

| member | source | states |
|---|---|---|
| Basics.Lower | backend/dsa_agent.py:27 | lower-casing keeps the length of the message |
| Basics.LowerAt | backend/dsa_agent.py:27 | each character of the lower-cased text is the lower-cased character at that position |
| Basics.LowerWithoutCapitals | backend/dsa_agent.py:27 | a text without capitals is its own lower-case form |
| Basics.LowerIdempotent | backend/dsa_agent.py:27 | lower-casing twice is lower-casing once |
| Basics.Upper | backend/simple_agent.py:114 | upper-casing keeps the length of the level name |
| Basics.UpperIdempotent | backend/simple_agent.py:114 | upper-casing twice is upper-casing once |
| Basics.Contains | backend/dsa_agent.py:29-53 | `t in s`: true only when `t` fits in `s`, and always true for the empty `t` |
| Basics.ContainsIffOccurs | backend/dsa_agent.py:29-53 | the substring test `t in s` holds exactly when `t` occurs at some index of `s` |
| Basics.ContainsAt | backend/dsa_agent.py:29-53 | an occurrence at any index makes the substring test true |
| Basics.StripLeft | backend/dsa_schedule.py:50 | the result is a suffix; everything dropped is whitespace; it does not start with whitespace |
| Basics.StripRight | backend/dsa_schedule.py:50 | the result is a prefix; everything dropped is whitespace; it does not end with whitespace |
| Basics.Strip | backend/dsa_schedule.py:50 | the stripped topic neither starts nor ends with whitespace |
| Basics.StripIsTrimmedSlice | backend/dsa_schedule.py:50 | the stripped topic is a contiguous slice of the focus with only whitespace cut off both ends |
| Basics.StripEmptyIffAllSpace | backend/dsa_schedule.py:50-52 | a focus strips to the empty (falsy) topic exactly when it is all whitespace |
| Basics.ParseDigits | backend/dsa_agent.py:37 | `int()` of a digit run is 0 exactly when every digit is '0' |
| Basics.NatToString | backend/dsa_schedule.py:32 | `str(n)` is a non-empty digit string with a leading '0' only for zero |
| Basics.IntToString | backend/dsa_schedule.py:49 | `str(i)` is non-empty and starts with '-' exactly for negatives |
| Basics.ParseNatToString | backend/dsa_agent.py:37 | `int(str(n)) == n` |
| Basics.ParseLeadingZero | backend/dsa_agent.py:37 | `int()` ignores a leading zero |
| Basics.IntToStringInjective | backend/dsa_schedule.py:49 | distinct days have distinct keys `str(day)` |
| Basics.StrLess | backend/dsa_schedule.py:64 | Python's `<` on strings: nothing is below the empty string, and a proper prefix comes first |
| Basics.StrLessIrreflexive | backend/dsa_schedule.py:64 | the string order used by `sorted` is irreflexive |
| Basics.StrLessTransitive | backend/dsa_schedule.py:64 | the string order is transitive |
| Basics.StrLessTotal | backend/dsa_schedule.py:64 | any two distinct strings are ordered one way |
| Basics.StrLessAsymmetric | backend/dsa_schedule.py:64 | the string order is asymmetric |
| Basics.Insert | backend/dsa_schedule.py:64 | inserting into a strictly sorted list keeps it strictly sorted and adds exactly that element |
| Basics.SortSet | backend/dsa_schedule.py:64 | `sorted(set)` is strictly ascending, has exactly the set's elements, and has as many entries as the set |
| Basics.SortedUnique | backend/dsa_schedule.py:64 | two strictly sorted lists with the same elements are equal, so the sorted list is determined by the set |
| Basics.SortedCardinality | backend/dsa_schedule.py:64-66 | a strictly sorted list has no duplicates: its length is the size of its element set |
| Schedule.Load | backend/dsa_schedule.py:16-20 | a missing file loads as the empty set; an existing one as the set it lists |
| Schedule.Mark | backend/dsa_schedule.py:72-76 | marking always writes the file, and it then holds the old set plus `str(day)` |
| Schedule.Unmark | backend/dsa_schedule.py:78-84 | the loaded set loses `str(day)`; when the key was absent the file is untouched (a missing file stays missing) |
| Schedule.MarkCompletesExactlyThatDay | backend/dsa_schedule.py:72-76 | after marking `day`, a day is completed iff it is `day` or was completed before |
| Schedule.MarkIdempotent | backend/dsa_schedule.py:72-76 | marking twice leaves the same file as marking once |
| Schedule.UnmarkAbsentIsNoWrite | backend/dsa_schedule.py:78-84 | unmarking a day that is not completed leaves the file untouched (absent stays absent) |
| Schedule.UnmarkRemovesExactlyThatDay | backend/dsa_schedule.py:78-84 | after unmarking `day`, a day is completed iff it is not `day` and was completed before |
| Schedule.UnmarkUndoesMark | backend/dsa_schedule.py:72-84 | mark then unmark restores the completed set when the day was not completed before |
| Schedule.FindRow | backend/dsa_schedule.py:26-30 | the first row whose Day equals `day`, or none exactly when no row has that day |
| Schedule.PlanLinesPrefixStep | backend/dsa_schedule.py:33-38 | each loop iteration appends exactly the next numbered problem line |
| Schedule.PlanLinesKeepsHead | backend/dsa_schedule.py:32-38 | the problem lines only extend the header |
| Schedule.DayPlanText | backend/dsa_schedule.py:24-39 | an unknown day gives the not-found message; a known day's plan starts with the header of the first row with that day |
| Schedule.RowPlanLayout | backend/dsa_schedule.py:31-39 | a row's plan is the header followed by exactly the lines for problems 1, 2 and 3 |
| Schedule.DayPlanLayout | backend/dsa_schedule.py:24-39 | an unknown day gives exactly the not-found message; a known day gives the first matching row's header and three problem lines |
| Schedule.ProblemLineLinksIff | backend/dsa_schedule.py:34-38 | a problem line is the `[name](url)` link iff the table maps the name to that non-empty URL |
| Schedule.FirstPending | backend/dsa_schedule.py:96-101 | the first row in sheet order whose day key is not completed, or none exactly when every row's day is completed |
| Schedule.NextDayPlanText | backend/dsa_schedule.py:91-104 | the celebration when every day is completed, else the plan of the first pending row |
| Schedule.FirstPendingAt | backend/dsa_schedule.py:96-101 | a pending row after only completed rows is the first pending row |
| Schedule.NextPlanIsFirstPendingRow | backend/dsa_schedule.py:96-101 | the next plan is the plan of the first pending row itself, not of an earlier row with the same day |
| Schedule.NextPlanAdvances | backend/dsa_schedule.py:91-104 | once the first pending day is completed, the next plan comes from a strictly later row, or there is none |
| Schedule.AllCompletedCelebrates | backend/dsa_schedule.py:104 | with every row's day completed the celebration message is returned |
| Schedule.CompletedTopicSet | backend/dsa_schedule.py:48-53 | every collected topic is non-empty and not "(missing topic)" in any case; nothing completed gives no topics |
| Schedule.BulletList | backend/dsa_schedule.py:68 | the bullet list is empty exactly for no topics, and otherwise starts with "- " |
| Schedule.TopicsSummary | backend/dsa_schedule.py:65-69 | the summary ends with the bullet list of the topics |
| Schedule.CompletedTopicSetSnoc | backend/dsa_schedule.py:48-53 | one more row adds to the topic set at most that row's stripped focus, exactly when it counts |
| Schedule.TopicsPrefixStep | backend/dsa_schedule.py:48-53 | each iteration over the sheet adds exactly the current row's topic when it counts |
| Schedule.Tracker.MarkDayCompleted | backend/dsa_schedule.py:72-76 | the file now holds the old completed set plus `str(day)` (written even if the file was missing) |
| Schedule.Tracker.UnmarkDayCompleted | backend/dsa_schedule.py:78-84 | the completed set loses `str(day)`; the file is untouched when the day was not completed |
| Schedule.Tracker.ClearProgress | backend/dsa_schedule.py:86-89 | the file is gone, so the next load is the empty set |
| Schedule.Tracker.GetDayPlan | backend/dsa_schedule.py:24-39 | the loop builds exactly the day's plan text; an unknown day gives the not-found message; nothing is written |
| Schedule.Tracker.GetNextDayPlan | backend/dsa_schedule.py:91-104 | the loop with early return gives the plan of the first pending row, else the celebration; nothing is written |
| Schedule.Tracker.GetAllCompletedTopics | backend/dsa_schedule.py:41-70 | topics are strictly sorted (so duplicate-free) and are exactly the stripped, non-empty, non-"(missing topic)" focuses of completed days; their count is the set's size; no topics gives the fixed message and [] |
| Dispatcher.LeftmostMatchFrom | backend/dsa_agent.py:35 | the leftmost position at or after `from` where "day" + one space + a digit starts, or none exactly when there is no such position |
| Dispatcher.DigitRunEnd | backend/dsa_agent.py:35 | the greedy `\d+` takes the maximal digit run |
| Dispatcher.ExtractDay | backend/dsa_agent.py:35-37 | no day is extracted exactly when the pattern occurs nowhere |
| Dispatcher.ExtractDayIsLeftmost | backend/dsa_agent.py:35-37 | the extracted day is the decimal value of the whole digit run at the leftmost match |
| Dispatcher.ExtractedDayHasDay | backend/dsa_agent.py:32-35 | a message a day can be extracted from contains "day" |
| Dispatcher.ExtractFirstMatchOnly | backend/dsa_agent.py:35-37 | "mark day 12 and day 3" extracts 12 only |
| Dispatcher.ExtractLeadingZeros | backend/dsa_agent.py:35-37 | "day 007" extracts 7 |
| Dispatcher.ExtractNeedsOneSpace | backend/dsa_agent.py:35 | "day2" and "day  2" extract nothing |
| Dispatcher.ExtractFromUnmarkPhrase | backend/dsa_agent.py:35-37 | "unmark day 2" extracts 2 |
| Dispatcher.Classify | backend/dsa_agent.py:26-55 | next-plan exactly when the lower-cased text has "today" or "next"; the mark rules need "day" and "mark", the show rules "day"; a marked or shown day is the extracted day, and the help replies come exactly when none is extracted; what-plan needs "what" and "plan" |
| Dispatcher.ClassifyDependsOnlyOnLower | backend/dsa_agent.py:27 | the rule chosen depends only on the lower-cased message |
| Dispatcher.TodayOrNextWins | backend/dsa_agent.py:29-30 | any message containing "today" or "next" asks for the next plan, whatever else it contains |
| Dispatcher.MarkRule | backend/dsa_agent.py:32-41 | otherwise "day" and "mark" mark the first extracted day, or give the mark guidance when none is found |
| Dispatcher.ShowRule | backend/dsa_agent.py:43-50 | otherwise "day" with "problem"/"plan"/"focus" shows the first extracted day, or gives the show guidance |
| Dispatcher.WhatPlanOnlyWithoutDay | backend/dsa_agent.py:43-53 | the what-plan rule fires only on messages without "day" |
| Dispatcher.UnmarkPhraseWords | backend/dsa_agent.py:27-29 | "unmark day 2" is its own lower case and contains neither "today" nor "next" |
| Dispatcher.UnmarkPhraseHasDayAndMark | backend/dsa_agent.py:32 | "unmark day 2" contains both "day" and "mark" |
| Dispatcher.UnmarkPhraseMarks | backend/dsa_agent.py:32-39 | because matching is by substring, "unmark day 2" marks day 2 |
| Dispatcher.Reply | backend/dsa_agent.py:29-55 | no reply exactly when no rule fired; showing a day without a row gives the not-found message |
| Dispatcher.StoredAfter | backend/dsa_agent.py:32-39 | only the mark rule changes the file, and it adds exactly the extracted day's key |
| Dispatcher.AgentText | backend/dsa_agent.py:59-63 | the agent's text is never empty: the mock reply when no rule fired, else the truthy structured reply |
| Dispatcher.DayPlanTextHead | backend/dsa_schedule.py:28-32 | every day plan is non-empty and starts with the calendar or the warning sign |
| Dispatcher.NextPlanHead | backend/dsa_schedule.py:91-104 | every next-plan text is non-empty and starts with the calendar, warning or celebration sign |
| Dispatcher.StructuredReplyIsNotMock | backend/dsa_agent.py:29-53 | every rule that fires gives a non-empty reply different from the mock reply |
| Dispatcher.MockIffNoMatch | backend/dsa_agent.py:55-63 | the agent answers the mock reply exactly when no rule fired |
| Dispatcher.OnlyMarkWrites | backend/dsa_agent.py:29-55 | only the mark rule changes the progress file |
| Dispatcher.InterpretInput | backend/dsa_agent.py:26-55 | the reply is the chosen rule's reply against the state before the call; the file changes only as marking the extracted day changes it |
| Dispatcher.DsaAgent | backend/dsa_agent.py:57-63 | the structured reply when it is truthy, else "This is a mock response", the latter exactly when no rule fired; same state change as `interpret_input` |
| Logger.LogsOf | backend/logger.py:27-28 | an unknown session's log is empty; a known one's is its stored list |
| Logger.Appended | backend/logger.py:31-38 | one append adds the session if missing, makes the session's log the old log plus the entry (length + 1), and leaves every other session's log alone |
| Logger.AppendAll | backend/logger.py:31-38 | a run of appends only ever extends each session's log (the old log is a prefix) and creates the first named session |
| Logger.EntriesFor | backend/logger.py:31-38 | a session receives at most as many entries as there were appends |
| Logger.AppendAllExtends | backend/logger.py:31-38 | the logs are append-only: after any run of appends a session's log is its old log followed by exactly the entries sent to it, in order |
| Logger.AppendAllLeavesOthers | backend/logger.py:31-38 | appends to other sessions never change a session's log |
| Logger.SessionStore.GetSessionLogs | backend/logger.py:27-28 | `get_session_logs` on an unknown session returns the empty list |
| Logger.SessionStore.AppendSessionLog | backend/logger.py:31-38 | the session's log gains exactly the entry with the given input and response, at the end; other sessions are unchanged |
| Logger.SessionStore.PersistSessionToMongo | backend/logger.py:46-59 | nothing is persisted exactly when the log is empty or the store is unavailable; otherwise the document carries the whole log; memory is only read |
| LlmFallback.PersonasKeys | backend/simple_agent.py:9-110 | the persona table has exactly the keys SDE1, SDE2 and SDE3 |
| LlmFallback.PersonaForLevel | backend/simple_agent.py:112-115 | a missing or empty level gives SDE1; otherwise the upper-cased level's persona, with SDE1 for unknown keys |
| LlmFallback.PersonaIgnoresCase | backend/simple_agent.py:114 | a level and its upper-case spelling give the same persona |
| LlmFallback.LowerCaseLevel | backend/simple_agent.py:114-115 | "sde2" gives the SDE2 persona |
| LlmFallback.UnknownLevelIsEntryLevel | backend/simple_agent.py:115 | a level whose upper-case form is no key gives SDE1 |
| LlmFallback.HttpErrorMessage | backend/simple_agent.py:187 | the HTTP failure message starts with the cross mark and carries the status code |
| LlmFallback.HttpErrorMessageInjective | backend/simple_agent.py:187 | distinct status codes give distinct messages |
| LlmFallback.RequestFor | backend/simple_agent.py:143-165 | the request carries the model and exactly [system: persona for the level, user: the input], in that order |
| LlmFallback.EnvelopeFor | backend/simple_agent.py:131-209 | status is ok iff the key is present and the call succeeded; a snackbar is present iff the status is error; an ok message is the reply verbatim; every error message starts with the cross mark |
| LlmFallback.MissingKeyIgnoresOutcome | backend/simple_agent.py:131-140 | without a key the fixed error envelope is returned whatever the call would have done |
| LlmFallback.HttpBodyNeverShown | backend/simple_agent.py:185-196 | the provider's error body never reaches the envelope |
| LlmFallback.FailureMessagesDistinct | backend/simple_agent.py:133-200 | the missing-key, HTTP and generic failure messages differ |
| LlmFallback.LogAfter | backend/simple_agent.py:134-203 | with a truthy session id that session's log gains exactly the entry (input, returned message); every other log, and every log for a falsy id, is unchanged |
| LlmFallback.LogsExactlyOnce | backend/simple_agent.py:134-203 | with a truthy session id exactly one entry (input, returned message) is appended to that session; otherwise no log changes |
| LlmFallback.SimpleAgent | backend/simple_agent.py:117-209 | the envelope is the one for the key and outcome; a request is built iff the key is present and is the persona/user pair; the log gains exactly that one entry under a truthy session id |

## Left out

- The web layer (`backend/app.py`), the unused progress store (`backend/progress_store.py`), the command-line loop (`backend/run.py`) and all frontend code are not part of this model.
- Loading the schedule with pandas: the sheet is a sequence of rows whose cells are strings. A missing (NaN) focus is not modelled; `str(nan)` problems are ordinary strings here.
- The LeetCode link table is an arbitrary map parameter; its contents are not part of this model.
- Reading and writing `completed_days.json` is the field `stored`. JSON encoding, file errors and a malformed file are not modelled.
- The debug log list in `get_all_completed_topics` is never printed, so it is not modelled. The `print` in `clear_progress` is left out too.
- The OpenAI client and `memory.json` loading at import, and the unreachable code after the mock return in `dsa_agent`, are left out.
- MongoDB connection set-up and `insert_one`: `PersistSessionToMongo` returns the document it would insert. A failing insert is not modelled.
- The HTTP request itself, JSON decoding of the reply, the bearer header, the 30-second timeout and the temperature 0.7 are left out. The call is an input outcome `Success | HttpError | OtherError`, and malformed JSON counts as `OtherError`.
- `datetime.now()` timestamps are string parameters.
- The server-side `print` calls are left out: the provider's error body printed at `simple_agent.py` line 186, the exception text at line 199, and the status messages of `persist_session_to_mongo`. They go to the console and never into a reply.
- Concurrent requests are not modelled. Each operation runs alone, so the unsynchronised read-modify-write of `completed_days.json` and of `session_memory` (lost updates between two requests) is not captured.
- The default arguments of `simple_agent` (`session_id=None`, `model="llama-3.3-70b-versatile"`, `level="SDE1"`) are not modelled: `SimpleAgent` takes every argument explicitly. Passing `None` and `Some("SDE1")` gives the defaults' behaviour.
- The persona prose is not modelled; a persona is named by its level key.
- The environment lookup of the API key is the boolean `hasApiKey`. The session id is `Option<string>` and is truthy when present and non-empty.
- Basics.Lower: models ASCII lower-casing only. Python's Unicode `lower()` also maps other letters and can change the length.
- Basics.Upper: models ASCII upper-casing only. Python's `upper()` maps e.g. 'ſ' to 'S', so a non-ASCII level can select SDE2 in Python but not here.
- Dispatcher.ExtractDay: models `\d` as ASCII digits only. Python also matches other Unicode decimal digits.
- Basics.IntToString: days are unbounded integers. `int(row["Day"])` truncation of a non-integer cell is not modelled.

# odekake_for_you: the result handler's data shaping, in Dafny

The `/result` handler of the outing planner (`app.py`, `result()`) reads a
trip request from a submitted form. It shapes the values into strings, fills
them into a fixed prompt for a chat model, cleans the model's reply and shows
it. If the call or the history commit raises, it shows an apology carrying the
exception text instead. This project models every shaping step as a pure
Dafny function and proves what each step promises.

- `text.dfy` (`Wrappers`, `Text`): the Python `str` operations the handler
  calls, as functions on `seq<char>`: `sep.join`, `replace` and `strip`.
  It also holds `split` and the substring test `in`, which the handler does
  not call; they state what the others produce.
- `schedule.dfy` (`Schedule`): the schedule line (lines 77-83). It contains
  `datetime.strptime(v, '%Y-%m-%dT%H:%M')` modelled as the regular expression
  CPython compiles that format into. Matching uses backtracking over the
  alternatives of each group, IGNORECASE for the `T`, and refuses unconverted
  data. After that come `datetime`'s calendar checks (leap years, days per
  month, MINYEAR 1) and `strftime('%Y年%m月%d日 %H:%M')`.
- `budget.dfy` (`Budget`): the six-entry budget table and its fallback
  (lines 86-94).
- `fields.dfy` (`Fields`): the list fields joined with `", "`, the
  stations without their empty entries, and the parenthesised "other" entry
  (lines 98-104).
- `prompt.dfy` (`Prompt`): the fixed route block (lines 107-120) and the
  prompt f-string (lines 123-160). The f-string is a sequence of literal
  pieces and replacement fields, filled from the shaped values.
- `reply.dfy` (`Reply`): the fence stripping of the reply (line 176), the
  apology page (lines 186-188), the commit of the history row with its NOT
  NULL destination (lines 22, 179-184) and what is stored versus shown
  (lines 175-188).

The headline results:
- `strptime` accepts exactly the renderings of valid dates and times, in
  both directions (`StrptimeRender`, `StrptimeOnlyRender`).
- The schedule line reads 未定 exactly for a missing, empty or 未定 value.
- Fence stripping leaves no triple backtick and no surrounding white space,
  and applying it twice changes nothing.
- When no station name holds a comma and at least one station was entered,
  splitting the stations line at `", "` gives back the non-empty stations,
  in order.
- Every prompt holds the route-card block, the schedule twice, and the
  Google Maps link form.

Some behaviour one might expect is not in the code, and the model follows
the code:
- Station names are not trimmed: only empty entries are dropped, and a
  space-only entry stays (`StationsLineExample`).
- There is no party-composition table.
- There is no choice between two route-instruction blocks: the route-card
  block is always in the prompt (`PromptHasRoute`).
- No prompt section is ever left out (`TemplateHasEveryPiece`).
- The destination is not checked before the chat call. A form without one
  asks the model for a trip to "None" (`PromptMissingPlace`). The history
  row then breaks the NOT NULL constraint of its `destination` column
  (line 22), so the commit raises and the page shows the apology, not the
  plan (`MissingPlaceApology`).
- A failing history commit after a successful call is not harmless. It
  raises inside the same `try`, so the page shows the apology instead of the
  plan (`ShownPlan`, `ShownMatchesStored`).
- The comment on line 76 shows the formatted date unpadded. `strftime` pads
  month, day, hour and minute to two digits, and the model does the same
  (`StrftimeLayout`).

## Model

| member | source | states |
|---|---|---|
| Text.JoinSplit | app.py:98-104 | joining the pieces of `s.split(sep)` with `sep` gives `s` back, for every string |
| Text.SplitJoin | app.py:98-104 | splitting `sep.join(xs)` at `sep` gives `xs` back for a non-empty list `xs` none of whose entries holds the separator's first character (an empty list joins to "", which splits into [""]) |
| Text.JoinEmpty | app.py:98-104 | a join is empty exactly when there is nothing to join or a single empty entry |
| Text.ReplaceAbsent | app.py:176 | `replace` leaves a string without the pattern unchanged |
| Text.StripSlice | app.py:176 | `strip()` cuts a slice out of its argument, cuts only white space, and leaves no white space at either end |
| Text.StripUnchanged | app.py:176 | a string without white space at either end is its own `strip()` |
| Reply.NoFenceAfterRemoval | app.py:176 | after `replace("```", "")` no triple backtick is left, even where removals bring backticks together |
| Reply.StripFencesClean | app.py:176 | the cleaned reply holds no triple backtick and neither starts nor ends with white space |
| Reply.StripFencesPlain | app.py:176 | a reply without backticks and without surrounding white space comes through unchanged |
| Reply.StripFencesIdempotent | app.py:176 | cleaning a cleaned reply changes nothing |
| Reply.ErrorPage | app.py:186-188 | the apology is longer than the exception text and contains it |
| Reply.StoredNeedsDestination | app.py:179-184 | a history row is stored exactly when there is a destination, the call answered and the database took the row |
| Reply.MissingDestinationApology | app.py:179-188 | without a destination the page is the apology for the call's exception, or for the refused row when the call answered, and nothing is stored |
| Reply.ShownMatchesStored | app.py:175-188 | when a plan is stored, the page shows exactly that plan, and it has no fence; when nothing is stored, the page is the apology for some exception text |
| Schedule.DaysInMonth | app.py:80 | a month has 28 to 31 days; 28 exactly for February of a common year; 29 exactly for February of a leap year; 30 exactly for months 4, 6, 9, 11; 31 exactly for months 1, 3, 5, 7, 8, 10, 12 |
| Schedule.ValueDecimal | app.py:81 | `int` of what `%Y` writes for a year is that year |
| Schedule.Strptime | app.py:80 | whatever `strptime` returns is a date and time `datetime` accepts |
| Schedule.StrptimeRender | app.py:80 | every rendering of in-range fields that the pattern admits (padded or single-digit fields, a space before a one-digit day, `T` or `t`) parses back to those fields exactly when they form a valid date and time |
| Schedule.StrptimeOnlyRender | app.py:80 | everything `strptime` accepts is such a rendering of the date and time it returns |
| Schedule.StrptimeLength | app.py:80 | an accepted value is 12 to 16 characters long |
| Schedule.NoLeadingDigit | app.py:80 | a value that does not start with a digit is refused |
| Schedule.MonthPastDecember | app.py:80 | a month written 13 to 19 after a four-digit year and a dash is refused |
| Schedule.StrftimeLayout | app.py:81 | the shown date is the year as `%Y` writes it, then 年, two-digit month, 月, two-digit day, 日, a space, two-digit hour, a colon and two-digit minute |
| Schedule.StrftimeInjective | app.py:81 | different dates and times are shown differently |
| Schedule.FormatScheduleAccepted | app.py:78-81 | a value `strptime` accepts is shown re-rendered by `strftime` |
| Schedule.FormatScheduleStandard | app.py:78-81 | what a browser's date-time control sends for a valid date and time is shown re-rendered |
| Schedule.FormatScheduleNotCalendar | app.py:79-83 | in-range fields that are no calendar date (29 February of a common year, 31 April, year 0) are shown as typed |
| Schedule.FormatScheduleNotDate | app.py:79-83 | a non-empty value that does not start with a digit is shown as typed |
| Schedule.FormatScheduleUndecided | app.py:77-83 | the line reads 未定 exactly when the value is missing, empty or 未定 itself |
| Schedule.FormatScheduleNonEmpty | app.py:77-83 | the schedule line is never empty |
| Schedule.LeapDayExample | app.py:77-83 | `2024-02-29T10:00` is shown as `2024年02月29日 10:00` |
| Schedule.CommonYearExample | app.py:79-83 | `2023-02-29T10:00` is shown as typed |
| Schedule.MonthThirteenExample | app.py:79-83 | `2024-13-01T10:00` is shown as typed |
| Budget.BudgetPhrase | app.py:94 | the phrase is always one of the table's six; a known code gives its table entry; a missing or unknown code gives 指定なし |
| Budget.BudgetCodes | app.py:86-93 | the table knows exactly the codes cheap, 3000, 5000, 10000, luxury and unspecified |
| Budget.BudgetPhraseTable | app.py:86-94 | the phrase of each of the six codes |
| Budget.BudgetTableInjective | app.py:86-93 | no two codes share a phrase |
| Budget.BudgetPhraseNotSpecified | app.py:94 | the phrase is 指定なし exactly when the code is missing, unknown or `unspecified` |
| Budget.BudgetPhraseExact | app.py:94 | codes match exactly: `Cheap`, `3000 `, the empty code and a missing one all fall back |
| Fields.NonEmpty | app.py:98 | the filtered list is no longer than the input, and each entry is non-empty and comes from the input |
| Fields.NonEmptyAppend | app.py:98 | filtering distributes over concatenation, so the order is kept |
| Fields.NonEmptyCount | app.py:98 | every non-empty string is kept as often as it occurs, and the empty string is dropped |
| Fields.NonEmptyKeeps | app.py:98 | a list without empty entries passes unchanged |
| Fields.NonEmptyNone | app.py:98 | nothing is left exactly when every entry is empty |
| Fields.StationsLineEmpty | app.py:98 | the stations line is empty exactly when no station was entered |
| Fields.StationsLineSplit | app.py:98 | splitting the stations line at ", " gives back the non-empty stations in order, when no name holds a comma and at least one station was entered |
| Fields.ListedSplit | app.py:101-104 | splitting a joined list field at ", " gives the list back, for a non-empty list none of whose entries holds a comma |
| Fields.WithOtherParts | app.py:99-100 | the joined list comes first; a typed "other" entry follows as " (" + other + ")" and can be read back; otherwise nothing is added |
| Fields.WithOtherAbsent | app.py:99-100 | a missing "other" field and an empty one give the plain join |
| Fields.WithOtherOnly | app.py:99-100 | with nothing ticked, a typed "other" entry gives a field that starts with a space |
| Fields.StationsLineExample | app.py:98 | ["渋谷", "", "上野"] reads "渋谷, 上野"; a space-only entry is kept |
| Prompt.Show | app.py:127-140 | a rendered form value reads "None" exactly when the field is missing or was typed as "None", so the prompt cannot tell the two apart |
| Prompt.TemplateHasEveryPiece | app.py:123-160 | every literal piece and every filled field of the prompt appears in it, in template order |
| Prompt.TemplateHasRoute | app.py:155 | the route value is item 2 of the output structure |
| Prompt.TemplateHasSchedule | app.py:128 | the schedule value fills the schedule line of the basic information |
| Prompt.TemplateHasStartTime | app.py:157 | the schedule value fills the start-time instruction of the time table |
| Prompt.TemplateHasMapsUrl | app.py:148 | the Google Maps search link form is in the prompt |
| Prompt.TemplateHasPlace | app.py:127 | the destination fills its line |
| Prompt.TemplateHasBudget | app.py:129 | the budget phrase fills its line |
| Prompt.TemplateHasStations | app.py:132 | the stations line fills its line |
| Prompt.PromptHasRoute | app.py:107-160 | every prompt holds the route-card block as item 2, whether or not a station was entered |
| Prompt.PromptHasSchedule | app.py:128-157 | every prompt holds the formatted schedule in the basic information and again as the time-table anchor |
| Prompt.PromptHasMapsUrl | app.py:145-148 | every prompt holds the Google Maps search link form |
| Prompt.PromptHasStationsAndBudget | app.py:129-132 | every prompt holds the stations line and the budget phrase |
| Prompt.PromptMissingPlace | app.py:52-127 | a form without a destination gives a prompt whose destination line reads "None" |
| Prompt.MissingPlaceApology | app.py:22 | a form without a destination stores no plan and the page shows an apology, whatever the chat model answers |
| Prompt.PromptIgnoresBlankStations | app.py:98-132 | appending blank station rows to a form does not change its prompt |
| Prompt.PromptEmptyDate | app.py:77-128 | an empty date field and a missing one give the same prompt |

## Left out

- Flask routing, `request.form` parsing and page rendering (lines 40-47, 191-195) are HTTP glue. The form is a parameter (`Prompt.Form`), and the page is the plan text (`Reply.ShownPlan`).
- The OpenAI client and the chat call (lines 33-35, 165-175) are a network call. The reply is a parameter (`Reply.ChatReply`): its content, or the text of the exception raised. The system message and `temperature=0.7` are constants of that call and are not modelled.
- The SQLAlchemy model, `session.add`/`commit` and the history page (lines 16-28, 179-184, 197-202) are persistence through a library. The commit is modelled only by its outcome: a row without a destination is refused by the NOT NULL constraint (`Reply.CommitError`), and for any other row the outcome is an optional exception text. The `String(100)` length of the column, which SQLite does not enforce, is not modelled. The `created_at` timestamp and the descending ordering belong to the database.
- `print(f"Error: {e}")` (line 187) writes to the console and changes no value.
- `vibes_other` (line 59) is read but never used.
- `str(e)` for the exceptions raised is whatever the library produces; the apology takes it as a parameter.
- Schedule.Strptime: Python's `\d` also matches non-ASCII decimal digits (for example full-width ０-９). The model accepts ASCII digits only.
- Schedule.Strftime: the model assumes CPython 3.12 on Linux, where `%Y` is written as glibc writes it, without padding years below 1000. Other Python versions or C libraries may pad `%Y` to four digits.
- Prompt.TemplateHasSchedule: the schedule line and the time-table anchor are stated as two separate occurrences (`TemplateHasStartTime`). That they sit at different positions follows from `TemplateHasEveryPiece` but is not stated as a lemma of its own.

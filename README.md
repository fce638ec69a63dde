# tictictasks: recurrence translation and row assembly

This project models the core of `tictictasks.py`, the script that converts a
Todoist JSON export into TickTick CSV backup files. The model has two parts.

- **The recurrence translator** `parseRecurrence` turns a free-form Todoist
  phrase such as `every 2 weeks` or `every Apr 15` into a recurrence-rule
  string in the RECUR format of section 4.3.10 of RFC 2445. The rule uses only
  FREQ, INTERVAL, BYDAY, BYMONTH and BYMONTHDAY.
  - Six regular expressions are tried in a fixed order with `re.match`. Each
    one is anchored at the start, ignores case and allows leading blanks.
  - The first pattern that matches decides the rule, and the rule is
    upper-cased.
  - Each regular expression is a hand-written prefix recogniser over
    `seq<char>`. It returns the pieces of the match, as a match object does.
    - Its contract says that those pieces are of the pattern's shape and
      spell out the matched prefix (soundness).
    - A lemma states the converse (completeness): on a text made of such
      pieces, the recogniser returns exactly those pieces.
- **The per-task row assembly** of the main loop, for one project.
  - An outlook link in the task title moves into the task's notes.
  - The ThunderLinks in the notes move into the title.
  - The remaining notes are keyed by their posted time, sorted, and written as
    the note block.
  - The priority is mapped to a TickTick code, and every row gets its order
    value from a counter.
  - The notes dict that the loop appends to is a class, `Export.NoteIndex`.
    The two loops over the notes and the loop over the tasks are methods with
    loop invariants. Each method is proved against a specification function,
    and lemmas about that function state what the code promises.

Modules:

| module | file | contents |
|---|---|---|
| `Wrappers` | wrappers.dfy | `Option` |
| `Text` | text.dfy | ASCII character classes (`\s`, `\d`, `\w`), `lower()`/`upper()`, greedy runs, case-insensitive word alternations |
| `Lexicon` | lexicon.dfy | the alternations of the patterns and the month table `MMM_TO_MM` |
| `Recurrence` | recurrence.dfy | one match datatype and one recogniser per pattern, `ParseRecurrence`, and the rule datatype with its rendering |
| `RecurrenceLemmas` | recurrence_lemmas.dfy | recogniser completeness, each phrase family's rule, precedence, and the phrases that give no rule |
| `RecurrenceExamples` | recurrence_examples.dfy | the phrases the design names, worked through |
| `Links` | links.dfy | the outlook-link and ThunderLink patterns |
| `Notes` | notes.dfy | the note-text clean-up, the notes keyed by time, the sorted keys and the note block |
| `Export` | export.dfy | the notes dict, link promotion, the priority map, the order counter, and the row and project assembly |

Time stamps are abstract:
- A note's posted time is an integer key: the parsed, local-time timestamp.
  Keys are ordered as the timestamps are.
- The `strftime` header of a key is a function parameter, `header: int -> string`.

A missing `date_string` is the empty string. `parseRecurrence(None)` and
`parseRecurrence('')` both return `''`.

## Model

| member | source | states |
|---|---|---|
| `Text.MatchWord` | src/root/nested/tictictasks.py:30-34 | A regex alternation matched case-insensitively at the front of a text. The word found is in the table and starts the text, ignoring case. No table word starts the text when the result is None. |
| `Text.MatchWordExact` | src/root/nested/tictictasks.py:30-34 | In a prefix-free table, a text that starts with a table word (in any case) followed by a non-letter matches exactly that word. |
| `Text.TakeRunExact` | src/root/nested/tictictasks.py:30-35 | A greedy `\s*`, `\d+` or `\w*` run takes exactly the class run that is followed by a character outside the class. |
| `Lexicon.MonthTableMatchesPattern` | src/root/nested/tictictasks.py:32-37 | The month alternation of the two named-month patterns is exactly the key set of `MMM_TO_MM`, so for ASCII text the lookup at line 73 cannot fail. The i-th month maps to i+1. |
| `Lexicon.TablesArePrefixFree` | src/root/nested/tictictasks.py:30-34 | No alternative of any pattern's alternation is a prefix of another, so the first alternative that matches is the only one. |
| `Lexicon.UnitsAreNotMonths` | src/root/nested/tictictasks.py:30-32 | No unit word and month abbreviation is a prefix of the other. |
| `Recurrence.MatchLead` | src/root/nested/tictictasks.py:30-35 | `\s*(after\|every)\s+` at the front of the text. The leading blanks, the keyword (in the tag table, any case) and a non-empty blank run spell out the prefix, and what follows does not start with a blank. |
| `Recurrence.MatchInterval` | src/root/nested/tictictasks.py:30 | `RE_INTERVAL.match`: the match found is of the pattern's shape (optional digits then blanks, then a unit word) and spells the front of the text. |
| `Recurrence.MatchUnit` | src/root/nested/tictictasks.py:30 | `(day\|week\|month\|year)`: the unit taken is a unit word in any case and the rest follows it. |
| `Recurrence.MatchNumericDate` | src/root/nested/tictictasks.py:31 | `RE_EVERY_MMDD.match`: digits, blanks, `/` or `-`, blanks, digits. The greedy final `\d+` leaves no digit after the match. |
| `Recurrence.MatchMonthDay` | src/root/nested/tictictasks.py:32 | `RE_EVERY_MMMDD.match`: a month abbreviation, `\w*`, blanks and digits, with no digit left after the match. |
| `Recurrence.MatchDayMonth` | src/root/nested/tictictasks.py:33 | `RE_EVERY_DDMMM.match`: digits, blanks and a month abbreviation. |
| `Recurrence.MatchNthWeekday` | src/root/nested/tictictasks.py:34 | `RE_EVERY_NTH_DAYOFWEEK.match`: an ordinal 1-5, an optional st/nd/rd/th, blanks and a two-letter weekday. |
| `Recurrence.MatchOrdinalSuffix` | src/root/nested/tictictasks.py:34 | The optional `(?:st\|nd\|rd\|th)?`: the suffix taken is empty or one of the four, and the rest follows it. |
| `Recurrence.MatchDayOfMonth` | src/root/nested/tictictasks.py:35 | `RE_EVERY_DD.match`: digits after `every`, with no digit left after the match. |
| `Recurrence.MatchNamedMonth` | src/root/nested/tictictasks.py:71 | `RE_EVERY_MMMDD.match(s) or RE_EVERY_DDMMM.match(s)`: the month found is a table month and the day is a non-empty digit string. |
| `Recurrence.ParseRecurrence` | src/root/nested/tictictasks.py:39-86 | The rule is always upper-case: it has no lower-case letter. |
| `RecurrenceLemmas.MatchLeadExact` | src/root/nested/tictictasks.py:30-35 | Completeness of the lead: blanks, a tag word and blanks, followed by a non-blank, are matched as exactly those pieces. |
| `RecurrenceLemmas.UncountedAfterExact` | src/root/nested/tictictasks.py:30 | Past the lead, a unit word with no count before it is matched as an interval with no count. |
| `RecurrenceLemmas.CountedAfterExact` | src/root/nested/tictictasks.py:30 | Past the lead, digits, blanks and a unit word are matched as exactly that count and unit. |
| `RecurrenceLemmas.MatchIntervalExact` | src/root/nested/tictictasks.py:30 | Completeness of `RE_INTERVAL`: the text of any well-formed interval match, followed by anything, is matched as exactly that match. |
| `RecurrenceLemmas.MatchNumericDateExact` | src/root/nested/tictictasks.py:31 | Completeness of `RE_EVERY_MMDD` when the rest does not start with a digit. |
| `RecurrenceLemmas.MatchMonthDayExact` | src/root/nested/tictictasks.py:32 | Completeness of `RE_EVERY_MMMDD` when the rest does not start with a digit. |
| `RecurrenceLemmas.MatchDayMonthExact` | src/root/nested/tictictasks.py:33 | Completeness of `RE_EVERY_DDMMM`, for any rest. |
| `RecurrenceLemmas.MatchNthWeekdayExact` | src/root/nested/tictictasks.py:34 | Completeness of `RE_EVERY_NTH_DAYOFWEEK`, for any rest. |
| `RecurrenceLemmas.MatchDayOfMonthExact` | src/root/nested/tictictasks.py:35 | Completeness of `RE_EVERY_DD` when the rest does not start with a digit. |
| `RecurrenceLemmas.UnitSpelling` | src/root/nested/tictictasks.py:59-63 | The `DAY`->`DAI` respelling plus `LY` gives DAILY, WEEKLY, MONTHLY or YEARLY for the unit matched, in any case. |
| `RecurrenceLemmas.ParseIntervalPhrase` | src/root/nested/tictictasks.py:57-64 | Any interval phrase, followed by anything, gives FREQ of its unit and INTERVAL of its digits as written (1 when absent). |
| `RecurrenceLemmas.NumericDateFirst` | src/root/nested/tictictasks.py:57-67 | An `every MM/DD` phrase is never an interval phrase, so the MM/DD pattern decides its rule. |
| `RecurrenceLemmas.ParseNumericDatePhrase` | src/root/nested/tictictasks.py:66-69 | Any `every MM/DD` or `every MM-DD` phrase gives YEARLY with BYMONTH and BYMONTHDAY as written. |
| `RecurrenceLemmas.MonthDayFirst` | src/root/nested/tictictasks.py:57-71 | An `every Mon DD` phrase is neither an interval nor an MM/DD phrase, and the named-month alternation finds its month and day. |
| `RecurrenceLemmas.MonthDayOthersMiss` | src/root/nested/tictictasks.py:30-32 | Past the lead, a month abbreviation is neither a unit word nor a number, so the interval and MM/DD patterns fail on it. |
| `RecurrenceLemmas.ParseMonthDayPhrase` | src/root/nested/tictictasks.py:71-75 | Any `every Mon DD` phrase gives YEARLY with the month's number and the day as written. |
| `RecurrenceLemmas.DayMonthFirst` | src/root/nested/tictictasks.py:57-71 | An `every DD Mon` phrase reaches the named-month alternation, and the alternation finds its month and day. |
| `RecurrenceLemmas.ParseDayMonthPhrase` | src/root/nested/tictictasks.py:71-75 | Any `every DD Mon` phrase gives YEARLY with the month's number and the day as written. |
| `RecurrenceLemmas.NamedMonthOrderIrrelevant` | src/root/nested/tictictasks.py:71-75 | `every Apr 15` and `every 15 Apr` (same month in any case, same day) give the same rule. |
| `RecurrenceLemmas.NthWeekdayFirst` | src/root/nested/tictictasks.py:57-80 | An `every <1-5>[st\|nd\|rd\|th] <wd>` phrase passes the earlier patterns, unless a bare ordinal is followed by a unit word (`every 2 we...` is an interval phrase). |
| `RecurrenceLemmas.ParseNthWeekdayPhrase` | src/root/nested/tictictasks.py:77-80 | Such a phrase gives MONTHLY, INTERVAL=1 and BYDAY of its ordinal and its weekday in upper case. |
| `RecurrenceLemmas.DayOfMonthOthersMiss` | src/root/nested/tictictasks.py:30-34 | Digits followed by blanks and a remainder that is not a separator with a day after it, and holds no unit or month after a non-empty blank run, fail the interval, MM/DD, Mon DD and DD Mon patterns; the n-th weekday pattern fails too unless the day is one digit 1-5. |
| `RecurrenceLemmas.OrdinalDayNotWeekday` | src/root/nested/tictictasks.py:34 | A digit 1-5 with an ordinal suffix and no blank after it (`3rd`) does not match the n-th weekday pattern. |
| `RecurrenceLemmas.DayOfMonthFirst` | src/root/nested/tictictasks.py:57-85 | `every <digits>` followed by any text that neither continues the number, nor completes `[/-]\s*\d` after blanks, nor after blanks starts a unit or a month (and, for a one-digit day 1-5, is not an n-th weekday) falls through every earlier pattern to the last one, which matches it with that text left over. |
| `RecurrenceLemmas.ParseDayOfMonthPhrase` | src/root/nested/tictictasks.py:82-85 | Every such phrase, including `every 15th`, `every 15-ish` and `every 15 at 9am`, gives MONTHLY, INTERVAL=1 and BYMONTHDAY as written. |
| `RecurrenceLemmas.ParseEmptyWhenUnmatched` | src/root/nested/tictictasks.py:55-86 | The rule is empty exactly when the phrase is empty or no pattern matches it. No exception is raised. |
| `RecurrenceLemmas.ParseWithoutKeyword` | src/root/nested/tictictasks.py:30-35 | A phrase whose first word (after blanks) is neither `after` nor `every` gives the empty rule. |
| `RecurrenceLemmas.EveryLead` | src/root/nested/tictictasks.py:30-35 | After `every` and blanks, each pattern's outcome is decided by what follows alone, the same for all six. |
| `RecurrenceLemmas.IntervalAfterMissCounted` | src/root/nested/tictictasks.py:30 | Digits and blanks not followed by a unit word do not make an interval phrase. |
| `RecurrenceLemmas.NumericDateAfterMiss` | src/root/nested/tictictasks.py:31 | Digits and blanks not followed by a separator, blanks and a digit do not make an MM/DD phrase. |
| `RecurrenceLemmas.DayMonthAfterMiss` | src/root/nested/tictictasks.py:33 | Digits and blanks not followed by a month abbreviation do not make a DD Mon phrase. |
| `RecurrenceExamples.EveryTwoWeeks` | src/root/nested/tictictasks.py:57-64 | `every 2 week...` (so also `every 2 weeks`) gives `FREQ=WEEKLY;INTERVAL=2`. |
| `RecurrenceExamples.EveryTwoWeeksIsAlsoNthWeekday` | src/root/nested/tictictasks.py:57-58 | The same phrase also matches the n-th weekday pattern as `2` `we`; precedence makes the interval reading win, never `BYDAY=2WE`. |
| `RecurrenceExamples.EveryDay` | src/root/nested/tictictasks.py:57-64 | `every day...` (for example `every day at 9am`) gives `FREQ=DAILY;INTERVAL=1`. |
| `RecurrenceExamples.EveryWeekday` | src/root/nested/tictictasks.py:57-64 | `every weekday` matches the interval pattern as `week` and gives WEEKLY. |
| `RecurrenceExamples.AfterThreeDays` | src/root/nested/tictictasks.py:57-64 | `after 03 days` gives `INTERVAL=03`: the digits are copied as written. |
| `RecurrenceExamples.EveryThirteenFortyFive` | src/root/nested/tictictasks.py:66-69 | `every 13/45` gives `BYMONTH=13;BYMONTHDAY=45`: no range check. |
| `RecurrenceExamples.EveryAprilFifteen` | src/root/nested/tictictasks.py:71-75 | `every Apr 15` gives `FREQ=YEARLY;BYMONTH=4;BYMONTHDAY=15`. |
| `RecurrenceExamples.EveryFifteenApril` | src/root/nested/tictictasks.py:71-75 | `every 15 Apr` gives the same rule. |
| `RecurrenceExamples.EverySecondMonday` | src/root/nested/tictictasks.py:77-80 | `every 2nd Mon` gives `FREQ=MONTHLY;INTERVAL=1;BYDAY=2MO`. |
| `RecurrenceExamples.EveryFifteen` | src/root/nested/tictictasks.py:82-85 | `every 15` with no unit, followed by nothing, by a word, or by a separator with no day after it, falls through to `FREQ=MONTHLY;INTERVAL=1;BYMONTHDAY=15`. |
| `RecurrenceExamples.EveryFifteenIsh` | src/root/nested/tictictasks.py:31-35 | `every 15-ish` is no MM-DD date, since no day follows the dash, and gives `BYMONTHDAY=15`. |
| `RecurrenceExamples.EveryFifteenth` | src/root/nested/tictictasks.py:82-85 | `every 15th` gives `BYMONTHDAY=15`: the suffix is left over. |
| `RecurrenceExamples.AtNoUnitNoMonth` | src/root/nested/tictictasks.py:30-33 | Neither a unit word nor a month abbreviation starts `at`. |
| `RecurrenceExamples.EveryFifteenAt` | src/root/nested/tictictasks.py:82-85 | `every 15 at 9am` gives `BYMONTHDAY=15`. |
| `RecurrenceExamples.ThirdNotWeekday` | src/root/nested/tictictasks.py:34 | `every 3rd` with no blank after the suffix does not match the n-th weekday pattern. |
| `RecurrenceExamples.EveryThird` | src/root/nested/tictictasks.py:77-85 | `every 3rd` is not an n-th weekday phrase and gives `BYMONTHDAY=3`. |
| `RecurrenceExamples.CallMom` | src/root/nested/tictictasks.py:86 | `call mom` gives the empty rule. |
| `RecurrenceExamples.AfterFifteen` | src/root/nested/tictictasks.py:30 | `after 15` gives the empty rule: only the interval pattern accepts `after`, and it needs a unit. |
| `RecurrenceExamples.SundayNoUnit` | src/root/nested/tictictasks.py:30 | No unit word starts `sunday`. |
| `RecurrenceExamples.SundayNoMonth` | src/root/nested/tictictasks.py:32-33 | No month abbreviation starts `sunday`. |
| `RecurrenceExamples.EverySundayMisses` | src/root/nested/tictictasks.py:30-35 | Past `every`, `sunday...` fails all six patterns. |
| `RecurrenceExamples.EverySunday` | src/root/nested/tictictasks.py:34-35 | `every sunday` gives the empty rule: no pattern takes a weekday without an ordinal. |
| `Links.Find` | src/root/nested/tictictasks.py:28-29 | The first occurrence of a character at or after the position, or the end: with a newline, how far `.` reaches; with a comma, how far `[^,]+` reaches. |
| `Links.LastThunderTag` | src/root/nested/tictictasks.py:29 | The last position, at or below the bound, where `thunderlink://` is written in any case. None when there is none. |
| `Links.MatchThunderLink` | src/root/nested/tictictasks.py:141-143 | The link found starts with the tag and holds no newline. |
| `Links.ThunderLinkFound` | src/root/nested/tictictasks.py:141-143 | The greedy `.*` makes the link start at the last tag of the first line, and it runs to that line's end. |
| `Links.ThunderLinkAbsent` | src/root/nested/tictictasks.py:141-143 | No tag on the first line: no match. |
| `Links.LastOutlook` | src/root/nested/tictictasks.py:28 | The search over link starts from the bound down finds a match starting at or below the bound, and None only when no such match exists. |
| `Links.LastOutlookFirst` | src/root/nested/tictictasks.py:28 | No outlook match starting at or below the bound comes before the one found, in the order backtracking tries them. |
| `Links.FirstOutlook` | src/root/nested/tictictasks.py:129-133 | Searching from the end of the first line stops at the match that backtracking tries first. |
| `Links.MatchOutlookLink` | src/root/nested/tictictasks.py:129-133 | The link starts with `[[outlook=` and ends with the title and `]]`. The title holds no newline. |
| `Links.OutlookLinkFound` | src/root/nested/tictictasks.py:129-133 | The match that backtracking tries first (last start on the first line, then the latest title start and end) gives the `link` and `title` groups. |
| `Links.OutlookLinkAbsent` | src/root/nested/tictictasks.py:129-133 | No outlook match on the first line: no match. |
| `Links.BeforeTotal` | src/root/nested/tictictasks.py:28 | The backtracking order of candidate matches is total. |
| `Notes.CrLines` | src/root/nested/tictictasks.py:152 | `replace('\n', '\r')`: same length, every newline becomes a carriage return, other characters kept, no newline left. |
| `Notes.SplitNote` | src/root/nested/tictictasks.py:150-153 | The three parts of `^[\s\r]*(.*?)\r*$`: blanks, the group and carriage returns, concatenating to the text. The group neither starts with a blank nor ends with a carriage return, and an empty group leaves no trailing part. |
| `Notes.SplitNoteUnique` | src/root/nested/tictictasks.py:150-153 | That split is the only one of its shape. |
| `Notes.NoteBody` | src/root/nested/tictictasks.py:150-153 | The written text has no newline and ends with `\r---\r`. Before that it has no leading blank and no trailing carriage return. |
| `Notes.NoteBodyOf` | src/root/nested/tictictasks.py:150-153 | The written text is the note with the leading blanks and the trailing carriage returns removed, then `\r---\r`. |
| `Notes.ByDate` | src/root/nested/tictictasks.py:139-147 | The keys are the notes' posted times. Each key holds a note with that time. |
| `Notes.ByDateLastWins` | src/root/nested/tictictasks.py:147 | A later note with the same time replaces the earlier one: a note that no later note shares a time with is the one kept. |
| `Notes.SortedKeys` | src/root/nested/tictictasks.py:148 | `sorted(notesByDate.keys())`: strictly ascending, and holding exactly the posted times. |
| `Notes.IncreasingUnique` | src/root/nested/tictictasks.py:148 | Two strictly ascending lists of the same keys are equal, so the sorted list is determined by the key set. |
| `Notes.BlockConcat` | src/root/nested/tictictasks.py:148-154 | The block of two key lists one after the other is the two blocks one after the other. |
| `Notes.NoteBlockEmpty` | src/root/nested/tictictasks.py:137-154 | The note block is empty exactly when no note is left for it. |
| `Notes.NoteBlockAscending` | src/root/nested/tictictasks.py:139-154 | The block has one entry per distinct posted time, earliest first. |
| `Export.NoteIndex.Append` | src/root/nested/tictictasks.py:131-132 | Files a note at the end of the task's list, creating the list if need be. Every other task's notes are unchanged. |
| `Export.ThunderLinksSplit` | src/root/nested/tictictasks.py:140-143 | The title links of a note list are those of its parts in list order. |
| `Export.KeptSplit` | src/root/nested/tictictasks.py:140-147 | The kept notes of a note list are those of its parts in list order. |
| `Export.NoThunderLinks` | src/root/nested/tictictasks.py:140-143 | The title gains nothing exactly when no note has a ThunderLink. |
| `Export.AllKept` | src/root/nested/tictictasks.py:140-147 | When no note has a ThunderLink, every note goes to the block, in list order. |
| `Export.KeptStep` | src/root/nested/tictictasks.py:144-147 | One more note without a ThunderLink overwrites its time's entry of the dict; one with a link leaves the dict alone. |
| `Export.KeptExactly` | src/root/nested/tictictasks.py:140-147 | A note reaches the block exactly when it has no ThunderLink. |
| `Export.PriorityCode` | src/root/nested/tictictasks.py:177 | A code exists exactly for priorities -3 to 4 (Python's negative indexes included); it is one of `0`, `1`, `3`, `5`. |
| `Export.PriorityCodesAscend` | src/root/nested/tictictasks.py:177 | Priorities 1 to 4 give ascending codes, 1 gives `0` and 4 gives `5`; p-4 gives the same code as p. |
| `Export.OutlookMoved` | src/root/nested/tictictasks.py:128-134 | A title with an outlook link becomes the link's display text, and the notes gain exactly one note: the link, posted at the task's date added. |
| `Export.OutlookStays` | src/root/nested/tictictasks.py:128-134 | A title without an outlook link and its notes are left as they are. |
| `Export.PlainRow` | src/root/nested/tictictasks.py:128-154 | A task with no link of either kind keeps its text as the title, and its whole note list makes the note block. |
| `Export.AfterTasksElsewhere` | src/root/nested/tictictasks.py:131-132 | Filing outlook links leaves the notes of every task not in the list unchanged. |
| `Export.SeenWhenIdsDiffer` | src/root/nested/tictictasks.py:121-138 | With distinct task ids, each task sees exactly the notes filed for it before the export. |
| `Export.OrdersAscend` | src/root/nested/tictictasks.py:186-187 | The orders of n rows are multiples of 2^38 that never exceed 0, strictly ascending, and the last is 0. |
| `Export.MoveOutlookLink` | src/root/nested/tictictasks.py:128-134 | Gives the title left after promotion, and updates the notes dict as promotion says. |
| `Export.SortOutNotes` | src/root/nested/tictictasks.py:137-147 | Loop over the notes: the title gains the ThunderLinks in list order, and the dict holds the other notes keyed by time. |
| `Export.WriteNoteBlock` | src/root/nested/tictictasks.py:148-154 | Loop over the sorted keys: writes each key's header line and cleaned text. |
| `Export.MergeNotes` | src/root/nested/tictictasks.py:137-154 | The title with the notes' ThunderLinks, and the note block of the notes without one. |
| `Export.AssembleRow` | src/root/nested/tictictasks.py:124-187 | One task's row: promoted title and links, note block, translated recurrence, priority code and shifted order. The notes dict gains the outlook note. |
| `Export.ExportProject` | src/root/nested/tictictasks.py:120-187 | Loop over one project's tasks: the k-th row is that task's row, given the notes the earlier tasks left, with order (1-n+k)·2^38. The notes dict ends with every outlook link filed. |

## Left out

- Loading JSON, grouping notes, projects and tasks into dicts, the CSV header and row writing, and file naming (lines 89-118, 197) are not modelled. They are I/O around the core. The notes dict is an input, `Export.NoteIndex`.
- `dateutil.parse`, the UTC to local-time conversion and `strftime` (lines 121, 145, 149, 161) are foreign library calls. They rely on time-zone data. Timestamps are ordered integer keys, and the header text is the parameter `header`.
- Writing `posted_datetime` into each note dict (line 146) is not modelled. The key it stores is the note's `posted` field itself.
- The due-date column (lines 160-162) and the sort of a project's tasks by `date_added` (line 121) are not modelled, since both need the date parser. `Export.ExportProject` takes the tasks already in the order they are written.
- The diagnostic `print` for phrases that look recurring (lines 172-173) is console output only.
- The constant columns (checklist, reminder, status, completed time, time zone, all-day) are not modelled. Neither is `str()` of the order, which is kept as an integer.
- Only ASCII meanings of `\d`, `\s`, `\w` and case folding are modelled. `\s` is the ASCII whitespace Python's `str.isspace` accepts. Unicode digits, blanks and case mappings are out of scope.
- `Recurrence.ParseRecurrence` states upper case in its own contract. Its rule for each phrase family is stated by the lemmas in `RecurrenceLemmas`. These cover well-formed phrases followed by any text that the greedy runs cannot extend and that no earlier pattern takes. The day-of-month lemma takes the remainder as a blank run and the text after it, so that it states which remainders leave `every <digits>` as the first pattern to match. Other phrases are covered by the matcher contracts and `ParseEmptyWhenUnmatched`.
- `Export.PriorityCode`: a priority outside -3..4 gives None. The source raises an `IndexError` there. `Export.AssembleRow` and `Export.ExportProject` require valid priorities.

# Alarmprotokoll message logs and protocols, in Dafny

This project models the core of the IP-Symcon module *Alarmprotokoll*. It is a log of the alarm, state and event messages of an alarm system. It has two parts.

**Message logs** (`messages.dfy`, module `Messages`). Each instance keeps three text variables: the alarm, the state and the event log. Each is one string of newline-separated lines, newest first. It also keeps the archive variable `MessageArchive`, to which every message that passes the maintenance and lock checks is written while `ArchiveRetentionTime` is above 0. The model keeps the sequence of values written to it; whether the archive logs them is not part of this model.
- An incoming message is routed by its type: 0 is an event, 1 a state, 2 an alarm.
- It is put in front of the lines already there. Empty lines, which array_filter drops as `""` and `"0"`, are removed. So are the lines holding the log's placeholder text ("Keine … vorhanden!").
- A state update with `AmountStateMessages` = N >= 2 leaves the state log with at most N lines: the message on top of the first N - 1 earlier lines. This holds right after such an update for a one-line message, not at all times: with N = 1 a state message overwrites the alarm log and the state log is left as it is, with N <= 0 nothing changes, lowering N does not trim the log (RenameMessages clears it only for N = 0), and a message holding newlines adds several lines.
- The alarm and the event log are pruned daily by age. A line carries its date as `DD.MM.YYYY` at character offsets 0, 3 and 6.
- The delete operations reset a log to its placeholder.
- `RenameMessages` derives the name of each log from its retention setting.

Class `MessageLogs` holds the four variables as fields. Its methods are proved against the functions `Ingest`, `UpdatedEvent`, `UpdatedState`, `UpdatedAlarm` and `CleanedUp`. The lemmas beside them state what these functions do to the lines of a log, after one update and after any number of them.

**Protocols** (`protocol.dfy`, module `Protocol`). The monthly protocol and the archive protocol mail the archived messages of a period.
- The text is the title line, two empty lines, then each value on its own line. When there are no values, the text says "Es sind keine Ereignisse vorhanden." instead.
- The mail goes to every recipient row that is switched on and whose address has at least six bytes.
- Class `ProtocolSender` keeps the sent mails in an outbox, in order. It also keeps the interval of the monthly timer, which `SendMonthlyProtocol` re-arms.

Two supporting modules:
- `php_text.dfy` (module `PhpText`) models the PHP built-ins the code relies on: `explode`/`implode` on `"\n"`, `strpos` as a substring test, `substr`, the `(int)` cast of a string, `strlen` in UTF-8 bytes, and the decimal text of an integer.
- `calendar.dfy` (module `Calendar`) numbers days in the proleptic Gregorian calendar. Out-of-range months and days are normalised the way `mktime` does.

Conventions of the model:
- Today's date and each line's date are day numbers. Dates come from the caller.
- Times are Unix seconds, with local time taken as UTC.
- The answer of `IPS_ObjectExists` is a set of existing object ids.
- `AC_GetLoggedValues` is modelled by `Query` over a given sequence of logged values.
- Each `SMTP_SendMailEx` call is a `Mail` appended to the outbox.
- The semaphore is a flag that says whether it was acquired.

Two points of the code:
- `CleanUpMessages` takes no semaphore and does not check maintenance, while `UpdateMessages` does both.
- The protocol period has only two cases: 1 means the previous month; every other value means the current month.

## Model

| member | source | states |
|---|---|---|
| PhpText.ImplodeExplode | Alarmprotokoll/helper/AP_Messages.php:311-320 | joining the pieces of `explode("\n", s)` with `"\n"` gives `s` back |
| PhpText.ExplodeImplode | Alarmprotokoll/helper/AP_Messages.php:311-320 | splitting joined newline-free lines gives exactly those lines back |
| PhpText.ExplodeCount | Alarmprotokoll/helper/AP_Messages.php:311 | `explode` gives one piece more than the string has newlines |
| PhpText.ContainsInfix | Alarmprotokoll/helper/AP_Messages.php:314 | `strpos` finds a text that occurs anywhere in a string |
| PhpText.Substr | Alarmprotokoll/helper/AP_Messages.php:137-139 | `substr` of an in-range window is that slice, and never longer than asked |
| PhpText.CastOfDecimal | Alarmprotokoll/helper/AP_Messages.php:221-225 | `(int)` reads the decimal text of n back as n, whatever non-digit text follows |
| PhpText.CastOfWord | Alarmprotokoll/helper/AP_Messages.php:137-139 | `(int)` of a text that starts with a letter is 0 |
| PhpText.CastOfTwoDigits | Alarmprotokoll/helper/AP_Messages.php:138-139 | `(int)` of a two-digit field with a leading zero is its value |
| PhpText.CastOfFourDigits | Alarmprotokoll/helper/AP_Messages.php:137 | `(int)` of a four-digit year field is its value |
| PhpText.StrLen | Alarmprotokoll/helper/AP_Protocol.php:90 | `strlen` counts UTF-8 bytes: between one and four per character |
| PhpText.StrLenAscii | Alarmprotokoll/helper/AP_Protocol.php:90 | on ASCII text `strlen` is the number of characters |
| PhpText.YearText | Alarmprotokoll/helper/AP_Protocol.php:74 | `date('Y')` writes at least four characters |
| PhpText.YearTextReadsBack | Alarmprotokoll/helper/AP_Protocol.php:74-75 | the year text is all digits, after a minus sign for a year before 0, and the `(int)` cast reads the year back from it |
| PhpText.PadFourDigits | Alarmprotokoll/helper/AP_Protocol.php:74 | padding with leading zeros to four places keeps a digit string a digit string of the same value |
| PhpText.Explode | Alarmprotokoll/helper/AP_Messages.php:311 | `explode("\n", …)`: at least one piece, none holding a newline; the body splits at every newline |
| PhpText.Implode | Alarmprotokoll/helper/AP_Messages.php:320 | no contract; the body joins the lines with "\n" between them, the empty list giving "" (its round trips with `Explode` are the rows above) |
| PhpText.Contains | Alarmprotokoll/helper/AP_Messages.php:314 | no contract; `strpos(...) !== false`: the text starts with the substring at some position (`ContainsInfix` states that every occurrence is found) |
| PhpText.IntCast | Alarmprotokoll/helper/AP_Messages.php:137-139 | no contract; PHP 8's `(int)` of a string: leading white space, an optional sign, then the leading digits, else 0 (`CastOfDecimal`, `CastOfWord`, `CastOfTwoDigits` and `CastOfFourDigits` state what it reads) |
| PhpText.IntToString | Alarmprotokoll/helper/AP_Messages.php:209-294 | no contract; the decimal text `'…' . $r` gives an integer, with a minus sign for a negative one (`CastOfDecimal` reads it back) |
| Calendar.DaysInMonth | Alarmprotokoll/helper/AP_Protocol.php:52-58 | a month has 28 to 31 days, and 29 exactly for February of a leap year |
| Calendar.YearLength | Alarmprotokoll/helper/AP_Protocol.php:52-58 | a year has 366 days exactly when it is a leap year |
| Calendar.MonthLength | Alarmprotokoll/helper/AP_Protocol.php:52-58 | the first of the next month, December rolling into January, is DaysInMonth days after the first of a month |
| Calendar.YearMonth.Previous | Alarmprotokoll/helper/AP_Protocol.php:56-57 | the previous month ends where the given month begins; January goes back to December of the year before |
| Calendar.YearMonth.Next | Alarmprotokoll/helper/AP_Protocol.php:53 | the next month begins on the mktime-normalised first of month m + 1 |
| Calendar.DaysOfMonth | Alarmprotokoll/helper/AP_Messages.php:140-146 | the days of a month have consecutive day numbers, all before the next month |
| Calendar.MonthZeroDayZero | Alarmprotokoll/helper/AP_Messages.php:140 | mktime with month 0 and day 0 lands on 30 November of the year before |
| Calendar.DayNumber | Alarmprotokoll/helper/AP_Messages.php:140 | no contract; `mktime(0, 0, 0, m, d, y)` as a day number, out-of-range months and days carried into the year and month (`MonthLength`, `DaysOfMonth` and `MonthZeroDayZero` state how it counts) |
| Calendar.PreviousNext | Alarmprotokoll/helper/AP_Protocol.php:52-57 | stepping to the previous month and then to the next, or the other way round, gives the month back, so the two ranges of a period meet |
| Messages.AlarmHintIsPlaceholder | Alarmprotokoll/helper/AP_Messages.php:86 | the alarm log's placeholder text is one line with letters where a date's digits would be |
| Messages.StateHintIsPlaceholder | Alarmprotokoll/helper/AP_Messages.php:87 | the state log's placeholder text is one line with letters where a date's digits would be |
| Messages.EventHintIsPlaceholder | Alarmprotokoll/helper/AP_Messages.php:88 | the event log's placeholder text is one line with letters where a date's digits would be |
| Messages.Select | Alarmprotokoll/helper/AP_Messages.php:312-317 | the lines kept are no more than before and all pass the test |
| Messages.SelectMember | Alarmprotokoll/helper/AP_Messages.php:312-317 | a line is kept exactly when it was there and passes the test |
| Messages.SelectAppend | Alarmprotokoll/helper/AP_Messages.php:312-317 | the kept lines keep their relative order |
| Messages.SelectAll | Alarmprotokoll/helper/AP_Messages.php:312-317 | nothing is dropped when every line passes |
| Messages.SelectConsAll | Alarmprotokoll/helper/AP_Messages.php:319 | a passing line put in front of passing lines is kept in front |
| Messages.Lines | Alarmprotokoll/helper/AP_Messages.php:311 | no line of `array_filter(explode(...))` holds a newline or is `""` or `"0"` |
| Messages.LinesNoNewline | Alarmprotokoll/helper/AP_Messages.php:311-317 | the lines left by any filter hold no newline |
| Messages.RemoveFailing | Alarmprotokoll/helper/AP_Messages.php:312-317 | the `foreach … unset` loop leaves exactly the selected lines, in order |
| Messages.PrependedLines | Alarmprotokoll/helper/AP_Messages.php:311-321 | after an event or alarm update, piece 0 is the message and the rest are the previous non-empty lines without the placeholder, in order |
| Messages.PrependedLogLines | Alarmprotokoll/helper/AP_Messages.php:377-387 | the same for the filtered lines a later read sees, when the message is a single non-empty line |
| Messages.PrependedHasNoHint | Alarmprotokoll/helper/AP_Messages.php:312-319 | once a real message is in, no line of the log holds the placeholder |
| Messages.CappedLines | Alarmprotokoll/helper/AP_Messages.php:345-356 | after a state update with N ≥ 2, piece 0 is the message, the rest are the first min(len, N − 1) filtered previous lines, and there are at most N lines |
| Messages.CappedLogLines | Alarmprotokoll/helper/AP_Messages.php:345-356 | the same for the filtered lines a later read sees |
| Messages.ReversedMember | Alarmprotokoll/helper/AP_Messages.php:319 | newest first: entry i of the reversed arrivals is the (i+1)-th newest |
| Messages.HistoryKeepsAll | Alarmprotokoll/helper/AP_Messages.php:314-315 | a later update drops none of the earlier messages |
| Messages.EventHistoryFollowsLines | Alarmprotokoll/helper/AP_Messages.php:311-321 | the lines of the event log after any number of updates are those of the same updates applied to its lines: one message on top of the lines without the placeholder, per update |
| Messages.EventHistoryOnLinesKeepsAll | Alarmprotokoll/helper/AP_Messages.php:311-321 | on lines, any number of event updates leave every message, newest first, above the previous lines without the placeholder |
| Messages.EventHistoryLines | Alarmprotokoll/helper/AP_Messages.php:311-321 | after any number of event or alarm updates, the log is every message newest first, above the filtered previous lines |
| Messages.PlaceholderLines | Alarmprotokoll/helper/AP_Messages.php:314-315 | the placeholder line of a cleared log is removed by the next update |
| Messages.ClearedLogCountsIngests | Alarmprotokoll/helper/AP_Messages.php:311-321 | from a cleared log, k messages give exactly those k lines, newest first |
| Messages.TakeKeepsSelected | Alarmprotokoll/helper/AP_Messages.php:353 | `array_splice` of lines that all pass a test leaves lines that all pass |
| Messages.TakeCons | Alarmprotokoll/helper/AP_Messages.php:352-354 | the message on top of N − 1 lines is the first N lines of the message followed by those lines |
| Messages.TakeTake | Alarmprotokoll/helper/AP_Messages.php:353 | cutting to N and then to N − 1 lines cuts to N − 1 |
| Messages.CappedStep | Alarmprotokoll/helper/AP_Messages.php:345-356 | one state update on the newest N lines gives the newest N lines with the message on top |
| Messages.StateHistoryFollowsLines | Alarmprotokoll/helper/AP_Messages.php:345-356 | the lines of the state log after any number of updates are those of the same updates applied to its lines: the message on top of the first N - 1 lines without the placeholder, per update |
| Messages.StateHistoryOnLinesKeepsNewest | Alarmprotokoll/helper/AP_Messages.php:345-356 | on lines, any number of state updates leave the newest N of the messages and the previous lines without the placeholder, newest first |
| Messages.StateHistoryLines | Alarmprotokoll/helper/AP_Messages.php:345-356 | after any number of state updates the log is the newest N of the messages and the filtered previous lines, newest first |
| Messages.StateLogKeepsNewest | Alarmprotokoll/helper/AP_Messages.php:345-356 | from a cleared state log, k messages leave exactly the newest min(k, N), newest first |
| Messages.Ingest | Alarmprotokoll/helper/AP_Messages.php:44-73 | the archive gets the message when its retention > 0; the event log changes only for a known type whose own gate is open and when the event retention > 0; the state log changes only for type 1 with N ≥ 2; the alarm log takes the message for type 1 with N = 1 and is updated for type 2 with alarm retention > 0 |
| Messages.UnknownTypeChangesNoLog | Alarmprotokoll/helper/AP_Messages.php:49-73 | a type other than 0, 1 and 2 changes no log |
| Messages.CleanedUp | Alarmprotokoll/helper/AP_Messages.php:134-183 | cleanup leaves the state log and the archive alone, and every log whose retention is 0 or less |
| Messages.PrunedLines | Alarmprotokoll/helper/AP_Messages.php:134-157 | cleanup keeps exactly the lines less than R days from today, in order; when none is left, the log is its placeholder |
| Messages.DatedLineDay | Alarmprotokoll/helper/AP_Messages.php:137-140 | a line starting `DD.MM.YYYY` is dated the day it spells |
| Messages.CleanupBoundary | Alarmprotokoll/helper/AP_Messages.php:146-150 | a line dated R days before today is dropped; one dated R − 1 days before is kept |
| Messages.PlaceholderDay | Alarmprotokoll/helper/AP_Messages.php:137-140 | a placeholder line reads as 30 November 1999, so cleanup drops it by age |
| Messages.RetentionNameReadsBack | Alarmprotokoll/helper/AP_Messages.php:213-230 | a negative retention gives the bare name; otherwise the number after " (" reads back as the retention, "(deaktiviert)" as 0 |
| Messages.RetentionNameInjective | Alarmprotokoll/helper/AP_Messages.php:213-293 | different retentions that are not negative give different names |
| Messages.AmountNameReadsBack | Alarmprotokoll/helper/AP_Messages.php:234-251 | for N > 1 the state log's name is "Zustandsmeldungen (letzten " followed by N |
| Messages.MessageLogs.constructor | Alarmprotokoll/module.php:64-95 | a new instance is active and its variables are empty |
| Messages.MessageLogs.UpdateMessages | Alarmprotokoll/helper/AP_Messages.php:30-76 | in maintenance or without the lock nothing changes; otherwise the logs become `Ingest` of the old logs |
| Messages.MessageLogs.UpdateEventMessages | Alarmprotokoll/helper/AP_Messages.php:303-323 | the event log becomes the message on top of its filtered lines when the event retention > 0 |
| Messages.MessageLogs.UpdateStateMessages | Alarmprotokoll/helper/AP_Messages.php:332-359 | N = 1 overwrites the alarm log; N ≥ 2 caps the state log at N lines with the message on top; other logs are unchanged |
| Messages.MessageLogs.UpdateAlarmMessages | Alarmprotokoll/helper/AP_Messages.php:368-389 | the alarm log becomes the message on top of its filtered lines when the alarm retention > 0 |
| Messages.MessageLogs.DeleteAllMessages | Alarmprotokoll/helper/AP_Messages.php:83-89 | the three logs become their exact placeholder texts; the archive is unchanged |
| Messages.MessageLogs.DeleteEventMessages | Alarmprotokoll/helper/AP_Messages.php:96-100 | only the event log changes, to its placeholder |
| Messages.MessageLogs.DeleteStateMessages | Alarmprotokoll/helper/AP_Messages.php:107-111 | only the state log changes, to its placeholder |
| Messages.MessageLogs.DeleteAlarmMessages | Alarmprotokoll/helper/AP_Messages.php:118-122 | only the alarm log changes, to its placeholder |
| Messages.MessageLogs.CleanUpMessages | Alarmprotokoll/helper/AP_Messages.php:130-183 | the logs become `CleanedUp` of the old logs for today |
| Messages.MessageLogs.RenameMessages | Alarmprotokoll/helper/AP_Messages.php:209-294 | the four names follow the retention rules; a log whose setting is 0 is cleared to `""`, but not the archive |
| Messages.MktimeYear | Alarmprotokoll/helper/AP_Messages.php:140 | no contract; mktime's two-digit years: 0-69 become 2000-2069, 70-100 become 1970-2000, all others stay |
| Messages.LineDay | Alarmprotokoll/helper/AP_Messages.php:137-140 | no contract; the body reads day, month and year with `(int) substr` at offsets 0, 3 and 6 and normalises them as mktime (`DatedLineDay` and `PlaceholderDay` state what it gives) |
| Messages.Prepended | Alarmprotokoll/helper/AP_Messages.php:311-321 | no contract; the message on top of the previous lines without empty ones and without the placeholder, joined with "\n" (`PrependedLines` and `EventHistoryLines` state the result) |
| Messages.Take | Alarmprotokoll/helper/AP_Messages.php:353 | `array_splice($content, n)`: the result has min(n, length) lines |
| Messages.PrependedCapped | Alarmprotokoll/helper/AP_Messages.php:345-356 | no contract; the message on top of the first N - 1 previous lines without the placeholder (`CappedLines` and `StateHistoryLines` state the result) |
| Messages.UpdatedEvent | Alarmprotokoll/helper/AP_Messages.php:303-323 | no contract; with event retention > 0 the event log becomes `Prepended` of it, otherwise nothing changes (`Ingest` and `MessageLogs.UpdateEventMessages` use it) |
| Messages.UpdatedState | Alarmprotokoll/helper/AP_Messages.php:332-358 | no contract; N = 1 overwrites the alarm log, N > 1 gives the capped state log, N <= 0 changes nothing |
| Messages.UpdatedAlarm | Alarmprotokoll/helper/AP_Messages.php:368-389 | no contract; with alarm retention > 0 the alarm log becomes `Prepended` of it, otherwise nothing changes |
| Messages.Pruned | Alarmprotokoll/helper/AP_Messages.php:134-156 | no contract; the lines less than R days from today, joined, or the placeholder when none is left (`PrunedLines` states it) |
| Messages.RetentionName | Alarmprotokoll/helper/AP_Messages.php:213-230 | no contract; the switch on a retention: 0 "(deaktiviert)", 1 "(1 Tag)", r > 1 "(r Tage)", a negative one the bare name (`RetentionNameReadsBack` and `RetentionNameInjective` state it) |
| Messages.AmountName | Alarmprotokoll/helper/AP_Messages.php:234-251 | no contract; the switch on AmountStateMessages: 0, 1, n > 1 with n in the name, a negative one "Zustandsmeldung(en)" (`AmountNameReadsBack` states it) |
| Messages.Abs | Alarmprotokoll/helper/AP_Messages.php:147 | no contract; `abs` of an integer |
| Messages.Passes | Alarmprotokoll/helper/AP_Messages.php:135-148 | no contract; the three line tests: `NonEmpty` is array_filter's, dropping `""` and `"0"` (line 135, and 311, 341 of the updates); `LacksHint` drops a line where `strpos` finds the placeholder (line 314); `RecentAt` keeps a line only when `abs(day - today)` is below the retention, the negation of `$days >= R` (lines 146-148) |
| Messages.ReachesEvents | Alarmprotokoll/helper/AP_Messages.php:49-73 | no contract; whether a message of the given type updates the event log: the type is 0, 1 with AmountStateMessages above 0, or 2 with the alarm retention above 0, as the switch's cases call UpdateEventMessages; and the event retention is above 0, which UpdateEventMessages checks itself (line 310) |
| Protocol.MonthNameReadsBack | Alarmprotokoll/helper/AP_Protocol.php:61-73 | every month name reads back as its month, so the twelve names differ |
| Protocol.ReportMonth | Alarmprotokoll/helper/AP_Protocol.php:52-58 | the reported month is a valid month |
| Protocol.MonthRangeIsWholeMonth | Alarmprotokoll/helper/AP_Protocol.php:52-58 | the range runs from midnight of day 1 to the last second of the month's last day, exactly DaysInMonth × 86400 seconds |
| Protocol.ReportRangeAndToday | Alarmprotokoll/helper/AP_Protocol.php:52-58 | a period other than 1 covers all of today; period 1 ends one second before this month begins |
| Protocol.MarchReportsFebruary | Alarmprotokoll/helper/AP_Protocol.php:55-57 | on 15 March 2024, period 1 reports [1706745600, 1709251199], the 29 days of February 2024 |
| Protocol.JanuaryReportsDecember | Alarmprotokoll/helper/AP_Protocol.php:55-57 | in January, period 1 reports December of the year before, ending where the new year begins |
| Protocol.ArchiveStartIsNewYear2000 | Alarmprotokoll/helper/AP_Protocol.php:122-123 | 946684800 is midnight of 1 January 2000 |
| Protocol.Query | Alarmprotokoll/helper/AP_Protocol.php:76 | the query returns no more values than were logged |
| Protocol.QueryMember | Alarmprotokoll/helper/AP_Protocol.php:76 | a value is returned exactly when some entry logged it within the range |
| Protocol.QueryAppend | Alarmprotokoll/helper/AP_Protocol.php:76 | the values keep the order in which the archive holds them |
| Protocol.DefaultSubjectIsTitle | Alarmprotokoll/helper/AP_Protocol.php:75-85 | with the default subjects the mail subject is the text's title line, for both protocols |
| Protocol.JoinedLines | Alarmprotokoll/helper/AP_Protocol.php:80-82 | each value followed by `"\n"` splits back into the values and one empty piece |
| Protocol.HeaderLines | Alarmprotokoll/helper/AP_Protocol.php:75 | the header splits into the title with its colon and two empty lines |
| Protocol.NoEventsLine | Alarmprotokoll/helper/AP_Protocol.php:78 | the no-events text is one line |
| Protocol.BodyLines | Alarmprotokoll/helper/AP_Protocol.php:75-83 | the text's lines are the title line, two empty lines, then either the no-events line or every value on its own line, in order |
| Protocol.Mails | Alarmprotokoll/helper/AP_Protocol.php:87-96 | there is at most one mail per row, each through the given mailer with the given subject and text |
| Protocol.MailsMember | Alarmprotokoll/helper/AP_Protocol.php:87-96 | an address gets the mail exactly when a row that is switched on and has a six-byte address carries it |
| Protocol.MailsAppend | Alarmprotokoll/helper/AP_Protocol.php:87-96 | the mails follow the order of the list |
| Protocol.MailsCount | Alarmprotokoll/helper/AP_Protocol.php:87-96 | one mail per deliverable row |
| Protocol.NoneDeliverable | Alarmprotokoll/helper/AP_Protocol.php:89-92 | the count of deliverable rows is 0 exactly when every row is switched off or has a short address |
| Protocol.NoMails | Alarmprotokoll/helper/AP_Protocol.php:87-96 | no mail goes out exactly when no row is deliverable |
| Protocol.AsciiDeliverable | Alarmprotokoll/helper/AP_Protocol.php:89-91 | for an ASCII address the strlen bound of six bytes is a bound of six characters: such a row gets a mail exactly when it is switched on and its address has at least six characters |
| Protocol.MonthlySentIff | Alarmprotokoll/helper/AP_Protocol.php:43-96 | past maintenance and the feature flag, a monthly mail goes out exactly when the mailer is valid (id > 1 and existing), the day matches or is not checked, Archive ≠ 0, and some row is deliverable; every mail goes through MonthlySMTP |
| Protocol.ArchiveSentIff | Alarmprotokoll/helper/AP_Protocol.php:119-147 | an archive mail goes out exactly when ArchiveSMTP is valid and some row is deliverable |
| Protocol.ProtocolSender.RenderBody | Alarmprotokoll/helper/AP_Protocol.php:75-83 | the `$text .=` loop builds exactly the header followed by the values or the no-events text |
| Protocol.ProtocolSender.SendToRecipients | Alarmprotokoll/helper/AP_Protocol.php:87-96 | the recipient loop appends exactly `Mails` to the outbox and changes nothing else |
| Protocol.ProtocolSender.SendMonthlyProtocol | Alarmprotokoll/helper/AP_Protocol.php:31-101 | in maintenance or when switched off nothing changes, the timer included; otherwise the outbox gets the monthly mails and the timer is re-armed with the given interval, even when nothing was sent |
| Protocol.ProtocolSender.SendArchiveProtocol | Alarmprotokoll/helper/AP_Protocol.php:109-149 | in maintenance or when switched off nothing is sent; otherwise the outbox gets the archive mails for [946684800, now]; the timer is never touched |
| Protocol.MonthName | Alarmprotokoll/helper/AP_Protocol.php:61-73 | the German month names for 1 to 12, each at least three characters long (`MonthNameReadsBack` shows they are distinct) |
| Protocol.MonthRange | Alarmprotokoll/helper/AP_Protocol.php:52-58 | no contract; midnight of the month's first day to one second before the next month's first day (`MonthRangeIsWholeMonth` states it) |
| Protocol.Body | Alarmprotokoll/helper/AP_Protocol.php:75-83 | no contract; the header, then each value followed by "\n", or the no-events text when there is none (`BodyLines` and `RenderBody` state it) |
| Protocol.Header | Alarmprotokoll/helper/AP_Protocol.php:75 | no contract; the title followed by ":" and three newlines (`HeaderLines` states its lines) |
| Protocol.MonthlyTitle | Alarmprotokoll/helper/AP_Protocol.php:74-75 | no contract; "Monatsprotokoll <month name> <year>, <designation>" |
| Protocol.MonthlySubject | Alarmprotokoll/helper/AP_Protocol.php:85 | no contract; the subject setting, then the month name, the year and the designation (`DefaultSubjectIsTitle` relates it to the title) |
| Protocol.ArchiveTitle | Alarmprotokoll/helper/AP_Protocol.php:126 | no contract; "Archivprotokoll <designation>" |
| Protocol.ArchiveSubject | Alarmprotokoll/helper/AP_Protocol.php:136 | no contract; the subject setting, a space and the designation |
| Protocol.Deliverable | Alarmprotokoll/helper/AP_Protocol.php:89-91 | no contract; a recipient row that is switched on and whose address has at least six bytes (`MailsMember` and `AsciiDeliverable` use it) |
| Protocol.MonthlyMails | Alarmprotokoll/helper/AP_Protocol.php:43-96 | no contract; the mails of one monthly run past the first two guards: none unless the mailer is valid, the day gate passes and Archive != 0 (`MonthlySentIff` states when mails go out) |
| Protocol.ArchiveMails | Alarmprotokoll/helper/AP_Protocol.php:119-147 | no contract; the mails of one archive run past the first two guards: none unless ArchiveSMTP is valid, else one per deliverable row with the text for [946684800, now] (`ArchiveSentIff` states when mails go out) |
| Protocol.ProtocolSender.constructor | Alarmprotokoll/module.php:102 | a new instance is active, has the given settings and an empty outbox, and its monthly timer is registered with interval 0 |
| Protocol.MonthStart | Alarmprotokoll/helper/AP_Protocol.php:52-57 | no contract; `strtotime('first day of … midnight')`: midnight of the month's first day in Unix seconds, local time taken as UTC |
| Protocol.Midnight | Alarmprotokoll/helper/AP_Protocol.php:52-57 | no contract; midnight of a date in Unix seconds, local time taken as UTC |
| Protocol.Joined | Alarmprotokoll/helper/AP_Protocol.php:80-82 | no contract; the `$text .=` loop's part: each value followed by "\n", in order (`JoinedLines` states its lines) |
| Protocol.ValidMailer | Alarmprotokoll/helper/AP_Protocol.php:44 | no contract; an SMTP id above 1 (0 is the root, 1 means none) that exists; the same test guards the archive protocol at line 120 |
| Protocol.MonthlyDue | Alarmprotokoll/helper/AP_Protocol.php:44-50 | no contract; the monthly guards past maintenance and the switch: a valid mailer, today being the protocol day or the day not checked, and Archive != 0 (`MonthlySentIff` uses it) |

## Left out

- The semaphore's busy-wait: `IPS_SemaphoreEnter` tries 100 times with random `IPS_Sleep` pauses. It is the flag `locked` of `UpdateMessages`. Leaving the semaphore has no effect on the model.
- Debug output (`SendDebug`), `IPS_SetName` and `IPS_SetIcon`. `RenameMessages` returns the four names instead of setting them.
- CleanUpMessages, archive part: deleting old archive data with `AC_DeleteVariableData` is an external service and is not modelled.
- SetCleanUpMessagesTimer: the timer to 00:05 of the next day depends on the clock and is not modelled.
- `GetInterval` is not part of this model. Its result is the parameter `interval` of `SendMonthlyProtocol`.
- Clock and time zone: `date`, `mktime` and `strtotime` count days and seconds with local time taken as UTC. Daylight-saving hours are left out. The day difference `(timestamp - timeNow) / 86400` is therefore a whole number of days.
- The `(int)` cast (`PhpText.IntCast`): a numeric string in exponent form (`"1e3"`, `"1.5e3"`) is read only up to the first non-digit, where PHP 8 applies the exponent. A fraction such as `"1.9"` is truncated to 1, as in PHP. The date fields the cleanup reads are at most four characters wide, so exponent forms matter only for lines that are not dated.
- Update in place: the `foreach … unset` loops and `array_splice`/`array_unshift` build new sequences rather than changing the PHP array in place. Positions are reindexed anyway, as `array_merge` and `array_unshift` do.
- Protocol.Query: the archive's own row limit and its ordering of rows are not modelled. The values come in the order of the given sequence.
- Mailer validity: module.php registers `MonthlyMailer` and `ArchiveMailer` (module.php:56, 59), while the protocols read `MonthlySMTP` and `ArchiveSMTP`. `MonthlyProtocolDay`, `MonthlyRecipientList`, `ArchiveRecipientList` and `MonthlyProtocolTime` are not registered there either. The model takes these properties as given settings.
- Object existence is the set `objects` given to the protocol methods.
- The recipient lists are given as decoded rows. A list whose JSON does not decode is not modelled.
- The return value of `SMTP_SendMailEx` is ignored, as in the code.
- `AP_Report.php` (HTML/PDF report), `AP_Config.php` (configuration form) and `AP_Archive.php` (archive logging toggles) are not part of this model.
- PhpText.Substr: offsets and lengths are counted in characters, while PHP's `substr` counts bytes. The two agree when the first ten bytes of a line are ASCII, as in a line that starts with a `DD.MM.YYYY` date. A line with a multi-byte character in that prefix is read differently: `"ÜÜ.10.2026"` reads as 30 September 2026 in the model, while PHP reads the bytes and gets 30 November 1999. So `LineDay`, `PrunedLines` and `CleanUpMessages` match the code only for lines whose first ten characters are ASCII.
- `AC_GetLoggedValues` failing: `SendArchiveProtocol` passes the `Archive` property unchecked, and `SendMonthlyProtocol` checks only that it is not 0, not that the archive exists. A failing call is not modelled. `logged` stands for the archive's rows of the `MessageArchive` variable and `Query` for the call, which selects those rows within the period. A call that returns nothing is an empty selection, which gives the text "Es sind keine Ereignisse vorhanden.".

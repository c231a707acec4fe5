/** The rolling message logs of an Alarmprotokoll instance: the alarm, state
    and event logs, each a newline-joined text with the newest line first,
    and the archive variable every incoming message is written to. */
module Messages {
  import opened PhpText
  import opened Calendar

  /** The texts an empty log shows. */
  const AlarmHint := "Keine Alarmmeldungen vorhanden!"
  const StateHint := "Keine Zustandsmeldungen vorhanden!"
  const EventHint := "Keine Ereignismeldungen vorhanden!"

  /** A placeholder text: a single line that is neither empty nor "0", with
      letters where a log line has the digits of its day, month and year. */
  predicate Placeholder(hint: string)
  {
    |hint| >= 10 && '\n' !in hint && hint != "0"
    && IsLetter(hint[0]) && IsLetter(hint[3]) && IsLetter(hint[6])
  }

  lemma {:induction false} AlarmHintIsPlaceholder()
    ensures Placeholder(AlarmHint)
  {
    assert AlarmHint[0] == 'K' && AlarmHint[3] == 'n' && AlarmHint[6] == 'A';
  }

  lemma {:induction false} StateHintIsPlaceholder()
    ensures Placeholder(StateHint)
  {
    assert StateHint[0] == 'K' && StateHint[3] == 'n' && StateHint[6] == 'Z';
  }

  lemma {:induction false} EventHintIsPlaceholder()
    ensures Placeholder(EventHint)
  {
    assert EventHint[0] == 'K' && EventHint[3] == 'n' && EventHint[6] == 'E';
  }

  /** The integer properties the logs read. A retention of 0 switches a log
      off; AmountStateMessages is a count, the others are days. */
  datatype Settings = Settings(
    alarmRetention: int,    // AlarmMessagesRetentionTime
    amountState: int,       // AmountStateMessages
    eventRetention: int,    // EventMessagesRetentionTime
    archiveRetention: int)  // ArchiveRetentionTime

  /** Message types of UpdateMessages. */
  const EventType := 0
  const StateType := 1
  const AlarmType := 2

  function Abs(x: int): int { if x < 0 then -x else x }

  // ---------------------------------------------------------------- lines

  /** The year mapping of mktime: 0-69 are 2000-2069, 70-100 are 1970-2000. */
  function MktimeYear(y: int): int
  {
    if 0 <= y <= 69 then y + 2000 else if 70 <= y <= 100 then y + 1900 else y
  }

  /** The day a log line is dated: day, month and year read with (int) from
      character offsets 0-1, 3-4 and 6-9, then normalised as by mktime. */
  function LineDay(line: string): int
  {
    var year := IntCast(Substr(line, 6, 4));
    var month := IntCast(Substr(line, 3, 2));
    var day := IntCast(Substr(line, 0, 2));
    DayNumber(MktimeYear(year), month, day)
  }

  /** The tests the logs apply to their lines: array_filter drops "" and
      "0"; an update drops the lines containing the placeholder; cleanup
      drops the lines whose day, as dayOf reads it, is retention days or
      more from today (cleanup reads it with LineDay). */
  datatype LineTest =
    | NonEmpty
    | LacksHint(hint: string)
    | RecentAt(dayOf: string -> int, today: int, retention: int)

  predicate Passes(t: LineTest, line: string)
  {
    match t
    case NonEmpty => line != "" && line != "0"
    case LacksHint(hint) => !Contains(line, hint)
    case RecentAt(dayOf, today, retention) => Abs(dayOf(line) - today) < retention
  }

  /** The lines that pass t, in their order. */
  function Select(lines: seq<string>, t: LineTest): (r: seq<string>)
    ensures |r| <= |lines|
    ensures forall i :: 0 <= i < |r| ==> Passes(t, r[i])
  {
    if lines == [] then []
    else
      var last := lines[|lines| - 1];
      Select(lines[..|lines| - 1], t) + (if Passes(t, last) then [last] else [])
  }

  /** Selecting distributes over concatenation: the order of the lines is kept. */
  lemma {:induction false} SelectAppend(a: seq<string>, b: seq<string>, t: LineTest)
    ensures Select(a + b, t) == Select(a, t) + Select(b, t)
    decreases |b|
  {
    if b == [] {
      assert a + b == a;
    } else {
      var n := |b| - 1;
      assert (a + b)[..|a + b| - 1] == a + b[..n];
      SelectAppend(a, b[..n], t);
    }
  }

  /** A line survives exactly when it was there and passes the test. */
  lemma {:induction false} SelectMember(lines: seq<string>, t: LineTest, x: string)
    ensures x in Select(lines, t) <==> x in lines && Passes(t, x)
    decreases |lines|
  {
    if lines != [] {
      var n := |lines| - 1;
      var init, last := lines[..n], lines[n];
      SelectMember(init, t, x);
      assert lines == init + [last];
      assert x in lines <==> x in init || x == last;
      if Passes(t, last) {
        assert Select(lines, t) == Select(init, t) + [last];
      } else {
        assert Select(lines, t) == Select(init, t);
      }
    }
  }

  /** A line in front of lines that all pass stays in front. */
  lemma {:induction false} SelectConsAll(m: string, lines: seq<string>, t: LineTest)
    requires Passes(t, m)
    requires forall i :: 0 <= i < |lines| ==> Passes(t, lines[i])
    ensures Select([m] + lines, t) == [m] + lines
  {
    SelectAll([m] + lines, t);
  }

  /** When every line passes, so does every line of a prefix. */
  lemma {:induction false} TakeKeepsSelected(lines: seq<string>, n: nat, t: LineTest)
    requires Select(lines, t) == lines
    ensures Select(Take(lines, n), t) == Take(lines, n)
  {
    var p := Take(lines, n);
    forall i | 0 <= i < |p| ensures Passes(t, p[i]) {
      assert p[i] == Select(lines, t)[i];
    }
    SelectAll(p, t);
  }

  /** Nothing is dropped when every line passes. */
  lemma {:induction false} SelectAll(lines: seq<string>, t: LineTest)
    requires forall i :: 0 <= i < |lines| ==> Passes(t, lines[i])
    ensures Select(lines, t) == lines
    decreases |lines|
  {
    if lines != [] {
      SelectAll(lines[..|lines| - 1], t);
    }
  }

  /** array_merge(array_filter(explode("\n", log))): the non-empty lines. */
  function Lines(log: string): (r: seq<string>)
    ensures forall i :: 0 <= i < |r| ==> '\n' !in r[i] && r[i] != "" && r[i] != "0"
  {
    var pieces := Explode(log);
    var r := Select(pieces, NonEmpty);
    assert forall i :: 0 <= i < |r| ==> r[i] in pieces by {
      forall i | 0 <= i < |r| ensures r[i] in pieces {
        SelectMember(pieces, NonEmpty, r[i]);
      }
    }
    r
  }

  /** The foreach loop that unsets every entry failing t. */
  method RemoveFailing(content: seq<string>, t: LineTest) returns (kept: seq<string>)
    ensures kept == Select(content, t)
  {
    kept := [];
    var i := 0;
    while i < |content|
      invariant 0 <= i <= |content|
      invariant kept == Select(content[..i], t)
    {
      assert content[..i + 1][..i] == content[..i];
      if Passes(t, content[i]) {
        kept := kept + [content[i]];
      }
      i := i + 1;
    }
    assert content[..|content|] == content;
  }

  // ---------------------------------------------------------------- updates

  /** The event and alarm update: the message on top, then the previous
      non-empty lines without the placeholder. */
  function Prepended(log: string, message: string, hint: string): string
  {
    Implode([message] + Select(Lines(log), LacksHint(hint)))
  }

  /** array_splice($content, n): keep the first n entries. */
  function Take(s: seq<string>, n: nat): (r: seq<string>)
    ensures |r| == Min(n, |s|)
  {
    if n <= |s| then s[..n] else s
  }

  /** The state update for amount >= 2: the message on top of at most
      amount - 1 previous lines. */
  function PrependedCapped(log: string, message: string, hint: string, amount: int): string
    requires amount >= 2
  {
    Implode([message] + Take(Select(Lines(log), LacksHint(hint)), amount - 1))
  }

  /** A message that ends up as exactly one line of a log. */
  predicate OneLine(message: string, hint: string)
  {
    '\n' !in message && message != "" && message != "0" && !Contains(message, hint)
  }

  lemma {:induction false} LinesNoNewline(log: string, t: LineTest)
    ensures forall i :: 0 <= i < |Select(Lines(log), t)| ==> '\n' !in Select(Lines(log), t)[i]
  {
    var s := Select(Lines(log), t);
    forall i | 0 <= i < |s| ensures '\n' !in s[i] {
      SelectMember(Lines(log), t, s[i]);
    }
  }

  /** After an event or alarm update line 0 is the message and the other
      lines are the previous ones, in order, without the empty lines and the
      lines containing the placeholder. */
  lemma {:induction false} PrependedLines(log: string, message: string, hint: string)
    requires '\n' !in message
    ensures Explode(Prepended(log, message, hint)) == [message] + Select(Lines(log), LacksHint(hint))
  {
    LinesNoNewline(log, LacksHint(hint));
    ExplodeImplode([message] + Select(Lines(log), LacksHint(hint)));
  }

  /** After a state update with amount >= 2 line 0 is the message and the
      other lines are the first amount - 1 previous ones; there are at most
      amount lines. */
  lemma {:induction false} CappedLines(log: string, message: string, hint: string, amount: int)
    requires amount >= 2 && '\n' !in message
    ensures Explode(PrependedCapped(log, message, hint, amount))
         == [message] + Take(Select(Lines(log), LacksHint(hint)), amount - 1)
    ensures |Explode(PrependedCapped(log, message, hint, amount))| <= amount
  {
    var kept := Select(Lines(log), LacksHint(hint));
    LinesNoNewline(log, LacksHint(hint));
    ExplodeImplode([message] + Take(kept, amount - 1));
  }

  /** Once a real message is in, no line of the log holds the placeholder. */
  lemma {:induction false} PrependedHasNoHint(log: string, message: string, hint: string)
    requires '\n' !in message && !Contains(message, hint)
    ensures forall line :: line in Explode(Prepended(log, message, hint)) ==> !Contains(line, hint)
  {
    PrependedLines(log, message, hint);
    forall line | line in Explode(Prepended(log, message, hint)) ensures !Contains(line, hint) {
      if line != message {
        SelectMember(Lines(log), LacksHint(hint), line);
      }
    }
  }

  /** The lines of a log after one event or alarm update. */
  lemma {:induction false} PrependedLogLines(log: string, message: string, hint: string)
    requires OneLine(message, hint)
    ensures Lines(Prepended(log, message, hint)) == [message] + Select(Lines(log), LacksHint(hint))
  {
    var kept := Select(Lines(log), LacksHint(hint));
    PrependedLines(log, message, hint);
    forall i | 0 <= i < |[message] + kept| ensures Passes(NonEmpty, ([message] + kept)[i]) {
      if i > 0 {
        SelectMember(Lines(log), LacksHint(hint), kept[i - 1]);
      }
    }
    SelectAll([message] + kept, NonEmpty);
  }

  function Reversed(s: seq<string>): (r: seq<string>)
    ensures |r| == |s|
  {
    if s == [] then [] else [s[|s| - 1]] + Reversed(s[..|s| - 1])
  }

  lemma {:induction false} ReversedMember(s: seq<string>, i: int)
    requires 0 <= i < |s|
    ensures Reversed(s)[i] == s[|s| - 1 - i]
  {
    if i > 0 {
      ReversedMember(s[..|s| - 1], i - 1);
    }
  }

  /** The log after the messages arrived one after the other. */
  function EventHistory(log: string, messages: seq<string>, hint: string): string
    decreases |messages|
  {
    if messages == [] then log
    else Prepended(EventHistory(log, messages[..|messages| - 1], hint), messages[|messages| - 1], hint)
  }

  /** Newest-first messages in front of lines without the placeholder hold
      no placeholder, so a further update drops none of them. */
  lemma {:induction false} HistoryKeepsAll(init: seq<string>, rest: seq<string>, hint: string)
    requires forall i :: 0 <= i < |init| ==> OneLine(init[i], hint)
    requires forall i :: 0 <= i < |rest| ==> Passes(LacksHint(hint), rest[i])
    ensures Select(Reversed(init) + rest, LacksHint(hint)) == Reversed(init) + rest
  {
    var all := Reversed(init) + rest;
    forall i | 0 <= i < |all| ensures Passes(LacksHint(hint), all[i]) {
      if i < |init| {
        ReversedMember(init, i);
      }
    }
    SelectAll(all, LacksHint(hint));
  }

  /** The event and alarm update on the lines of a log. */
  function PrependedOnLines(lines: seq<string>, m: string, hint: string): seq<string>
  {
    [m] + Select(lines, LacksHint(hint))
  }

  /** The lines of an event or alarm log after the messages arrived one after the other. */
  function EventHistoryOnLines(lines: seq<string>, messages: seq<string>, hint: string): seq<string>
    decreases |messages|
  {
    if messages == [] then lines
    else PrependedOnLines(EventHistoryOnLines(lines, messages[..|messages| - 1], hint), messages[|messages| - 1], hint)
  }

  /** The event log's lines follow the line-level history. */
  lemma {:induction false} EventHistoryFollowsLines(log: string, messages: seq<string>, hint: string)
    requires forall i :: 0 <= i < |messages| ==> OneLine(messages[i], hint)
    ensures Lines(EventHistory(log, messages, hint)) == EventHistoryOnLines(Lines(log), messages, hint)
    decreases |messages|
  {
    if messages != [] {
      var n := |messages| - 1;
      EventHistoryFollowsLines(log, messages[..n], hint);
      PrependedLogLines(EventHistory(log, messages[..n], hint), messages[n], hint);
    }
  }

  /** The line-level event history keeps every message, newest first. */
  lemma {:induction false} EventHistoryOnLinesKeepsAll(lines: seq<string>, messages: seq<string>, hint: string)
    requires messages != []
    requires forall i :: 0 <= i < |messages| ==> OneLine(messages[i], hint)
    ensures EventHistoryOnLines(lines, messages, hint) == Reversed(messages) + Select(lines, LacksHint(hint))
    decreases |messages|
  {
    var n := |messages| - 1;
    var init, m := messages[..n], messages[n];
    var previous := Select(lines, LacksHint(hint));
    var all := Reversed(init) + previous;
    assert Reversed(messages) + previous == [m] + all by {
      assert Reversed(messages) == [m] + Reversed(init);
    }
    assert EventHistoryOnLines(lines, messages, hint)
        == PrependedOnLines(EventHistoryOnLines(lines, init, hint), m, hint);
    if n == 0 {
      assert all == previous;
    } else {
      EventHistoryOnLinesKeepsAll(lines, init, hint);
      HistoryKeepsAll(init, previous, hint);
    }
  }

  /** Event and alarm logs keep every message, newest first, in front of
      the lines that were there before. */
  lemma {:induction false} EventHistoryLines(log: string, messages: seq<string>, hint: string)
    requires messages != []
    requires forall i :: 0 <= i < |messages| ==> OneLine(messages[i], hint)
    ensures Lines(EventHistory(log, messages, hint)) == Reversed(messages) + Select(Lines(log), LacksHint(hint))
  {
    EventHistoryFollowsLines(log, messages, hint);
    EventHistoryOnLinesKeepsAll(Lines(log), messages, hint);
  }

  /** A log cleared to its placeholder text has no lines left once a message comes in. */
  lemma {:induction false} PlaceholderLines(hint: string)
    requires Placeholder(hint)
    ensures Select(Lines(hint), LacksHint(hint)) == []
  {
    ExplodeSingle(hint);
    assert Explode(hint) == [hint];
    assert Explode(hint)[..0] == [];
    assert Lines(hint) == [hint];
    assert [hint][..0] == [];
    ContainsInfix([], hint, []);
    assert [] + hint + [] == hint;
  }

  /** From a cleared event or alarm log, k messages give a log of exactly k
      lines, the newest first; the placeholder is gone. */
  lemma {:induction false} ClearedLogCountsIngests(hint: string, messages: seq<string>)
    requires Placeholder(hint) && messages != []
    requires forall i :: 0 <= i < |messages| ==> OneLine(messages[i], hint)
    ensures Lines(EventHistory(hint, messages, hint)) == Reversed(messages)
  {
    EventHistoryLines(hint, messages, hint);
    PlaceholderLines(hint);
    assert Reversed(messages) + [] == Reversed(messages);
  }

  /** The lines of the state log after one update with amount >= 2. */
  lemma {:induction false} CappedLogLines(log: string, message: string, hint: string, amount: int)
    requires amount >= 2 && OneLine(message, hint)
    ensures Lines(PrependedCapped(log, message, hint, amount))
         == [message] + Take(Select(Lines(log), LacksHint(hint)), amount - 1)
  {
    var kept := Select(Lines(log), LacksHint(hint));
    var top := Take(kept, amount - 1);
    CappedLines(log, message, hint, amount);
    forall i | 0 <= i < |top| ensures Passes(NonEmpty, top[i]) {
      SelectMember(Lines(log), LacksHint(hint), kept[i]);
    }
    SelectConsAll(message, top, NonEmpty);
  }

  /** The state log after the messages arrived one after the other. */
  function StateHistory(log: string, messages: seq<string>, hint: string, amount: int): string
    requires amount >= 2
    decreases |messages|
  {
    if messages == [] then log
    else PrependedCapped(StateHistory(log, messages[..|messages| - 1], hint, amount), messages[|messages| - 1], hint, amount)
  }

  /** The state update on the lines of a log: the message on top of the
      first amount - 1 lines without the placeholder. */
  function CappedOnLines(lines: seq<string>, m: string, hint: string, amount: int): seq<string>
    requires amount >= 2
  {
    [m] + Take(Select(lines, LacksHint(hint)), amount - 1)
  }

  /** The lines of the state log after the messages arrived one after the other. */
  function StateHistoryOnLines(lines: seq<string>, messages: seq<string>, hint: string, amount: int): seq<string>
    requires amount >= 2
    decreases |messages|
  {
    if messages == [] then lines
    else CappedOnLines(StateHistoryOnLines(lines, messages[..|messages| - 1], hint, amount), messages[|messages| - 1], hint, amount)
  }

  /** The state log's lines follow the line-level history. */
  lemma {:induction false} StateHistoryFollowsLines(log: string, messages: seq<string>, hint: string, amount: int)
    requires amount >= 2
    requires forall i :: 0 <= i < |messages| ==> OneLine(messages[i], hint)
    ensures Lines(StateHistory(log, messages, hint, amount)) == StateHistoryOnLines(Lines(log), messages, hint, amount)
    decreases |messages|
  {
    if messages != [] {
      var n := |messages| - 1;
      StateHistoryFollowsLines(log, messages[..n], hint, amount);
      CappedLogLines(StateHistory(log, messages[..n], hint, amount), messages[n], hint, amount);
    }
  }

  /** A new top line above the first amount - 1 lines gives the first amount lines. */
  lemma {:induction false} TakeCons(m: string, s: seq<string>, amount: int)
    requires amount >= 2
    ensures [m] + Take(s, amount - 1) == Take([m] + s, amount)
  {
  }

  lemma {:induction false} TakeTake(s: seq<string>, amount: int)
    requires amount >= 2
    ensures Take(Take(s, amount), amount - 1) == Take(s, amount - 1)
  {
  }

  /** One state update on lines that are the first amount lines of all,
      every one without the placeholder. */
  lemma {:induction false} CappedStep(m: string, all: seq<string>, hint: string, amount: int)
    requires amount >= 2
    requires Select(all, LacksHint(hint)) == all
    ensures CappedOnLines(Take(all, amount), m, hint, amount) == Take([m] + all, amount)
  {
    TakeKeepsSelected(all, amount, LacksHint(hint));
    TakeTake(all, amount);
    TakeCons(m, all, amount);
  }

  /** The line-level state history keeps the newest amount lines. */
  lemma {:induction false} StateHistoryOnLinesKeepsNewest(lines: seq<string>, messages: seq<string>, hint: string, amount: int)
    requires amount >= 2 && messages != []
    requires forall i :: 0 <= i < |messages| ==> OneLine(messages[i], hint)
    ensures StateHistoryOnLines(lines, messages, hint, amount)
         == Take(Reversed(messages) + Select(lines, LacksHint(hint)), amount)
    decreases |messages|
  {
    var n := |messages| - 1;
    var init, m := messages[..n], messages[n];
    var previous := Select(lines, LacksHint(hint));
    var all := Reversed(init) + previous;
    assert Reversed(messages) + previous == [m] + all by {
      assert Reversed(messages) == [m] + Reversed(init);
    }
    assert StateHistoryOnLines(lines, messages, hint, amount)
        == CappedOnLines(StateHistoryOnLines(lines, init, hint, amount), m, hint, amount);
    if n == 0 {
      assert all == previous;
      TakeCons(m, previous, amount);
    } else {
      StateHistoryOnLinesKeepsNewest(lines, init, hint, amount);
      HistoryKeepsAll(init, previous, hint);
      CappedStep(m, all, hint, amount);
    }
  }

  /** The state log holds the newest amount lines, newest first. */
  lemma {:induction false} StateHistoryLines(log: string, messages: seq<string>, hint: string, amount: int)
    requires amount >= 2 && messages != []
    requires forall i :: 0 <= i < |messages| ==> OneLine(messages[i], hint)
    ensures Lines(StateHistory(log, messages, hint, amount))
         == Take(Reversed(messages) + Select(Lines(log), LacksHint(hint)), amount)
  {
    StateHistoryFollowsLines(log, messages, hint, amount);
    StateHistoryOnLinesKeepsNewest(Lines(log), messages, hint, amount);
  }

  /** From a cleared state log, the log holds the newest min(k, amount) of
      k messages, newest first. */
  lemma {:induction false} StateLogKeepsNewest(hint: string, messages: seq<string>, amount: int)
    requires Placeholder(hint) && amount >= 2 && messages != []
    requires forall i :: 0 <= i < |messages| ==> OneLine(messages[i], hint)
    ensures Lines(StateHistory(hint, messages, hint, amount)) == Take(Reversed(messages), amount)
    ensures |Lines(StateHistory(hint, messages, hint, amount))| == Min(amount, |messages|)
  {
    StateHistoryLines(hint, messages, hint, amount);
    PlaceholderLines(hint);
    assert Reversed(messages) + [] == Reversed(messages);
  }

  // ---------------------------------------------------------------- all logs

  /** The host variables the logs live in. */
  datatype Logs = Logs(alarm: string, state: string, event: string, archive: seq<string>)

  /** UpdateEventMessages. */
  function UpdatedEvent(logs: Logs, s: Settings, message: string): Logs
  {
    if s.eventRetention > 0 then logs.(event := Prepended(logs.event, message, EventHint)) else logs
  }

  /** UpdateStateMessages: amount 1 overwrites the alarm log with the message. */
  function UpdatedState(logs: Logs, s: Settings, message: string): Logs
  {
    if s.amountState == 1 then logs.(alarm := message)
    else if s.amountState > 1 then logs.(state := PrependedCapped(logs.state, message, StateHint, s.amountState))
    else logs
  }

  /** UpdateAlarmMessages. */
  function UpdatedAlarm(logs: Logs, s: Settings, message: string): Logs
  {
    if s.alarmRetention > 0 then logs.(alarm := Prepended(logs.alarm, message, AlarmHint)) else logs
  }

  /** Whether a message of the given type reaches the event log. */
  predicate ReachesEvents(s: Settings, messageType: int)
  {
    s.eventRetention > 0 &&
    (messageType == EventType
     || (messageType == StateType && s.amountState > 0)
     || (messageType == AlarmType && s.alarmRetention > 0))
  }

  /** UpdateMessages past the maintenance check and the lock: the archive is
      written first, then the message is routed by its type. */
  function Ingest(logs: Logs, s: Settings, message: string, messageType: int): (r: Logs)
    ensures r.archive == logs.archive + (if s.archiveRetention > 0 then [message] else [])
    ensures r.event == if ReachesEvents(s, messageType) then Prepended(logs.event, message, EventHint) else logs.event
    ensures r.state == if messageType == StateType && s.amountState > 1
                       then PrependedCapped(logs.state, message, StateHint, s.amountState) else logs.state
    ensures r.alarm == if messageType == StateType && s.amountState == 1 then message
                       else if messageType == AlarmType && s.alarmRetention > 0 then Prepended(logs.alarm, message, AlarmHint)
                       else logs.alarm
  {
    var archived := if s.archiveRetention > 0 then logs.(archive := logs.archive + [message]) else logs;
    if messageType == EventType then
      (if s.eventRetention > 0 then UpdatedEvent(archived, s, message) else archived)
    else if messageType == StateType then
      (if s.amountState > 0 then UpdatedState(UpdatedEvent(archived, s, message), s, message) else archived)
    else if messageType == AlarmType then
      (if s.alarmRetention > 0 then UpdatedAlarm(UpdatedEvent(archived, s, message), s, message) else archived)
    else archived
  }

  /** A message of an unknown type changes no log. */
  lemma {:induction false} UnknownTypeChangesNoLog(logs: Logs, s: Settings, message: string, messageType: int)
    requires messageType !in {EventType, StateType, AlarmType}
    ensures Ingest(logs, s, message, messageType).(archive := logs.archive) == logs
  {
  }

  /** The cleanup of an age-bounded log with retention R > 0. */
  function Pruned(log: string, today: int, retention: int, hint: string): string
  {
    var kept := Select(Lines(log), RecentAt(LineDay, today, retention));
    if kept == [] then hint else Implode(kept)
  }

  /** The log pruning of CleanUpMessages; a retention of 0 or less leaves a log alone. */
  function CleanedUp(logs: Logs, s: Settings, today: int): (r: Logs)
    ensures r.state == logs.state && r.archive == logs.archive
    ensures s.eventRetention <= 0 ==> r.event == logs.event
    ensures s.alarmRetention <= 0 ==> r.alarm == logs.alarm
  {
    var e := if s.eventRetention > 0 then logs.(event := Pruned(logs.event, today, s.eventRetention, EventHint)) else logs;
    if s.alarmRetention > 0 then e.(alarm := Pruned(e.alarm, today, s.alarmRetention, AlarmHint)) else e
  }

  /** Cleanup keeps exactly the lines less than R days from today, in their
      order; when none is left the log shows its placeholder. */
  lemma {:induction false} PrunedLines(log: string, today: int, retention: int, hint: string)
    ensures var p := Pruned(log, today, retention, hint);
            var kept := Select(Lines(log), RecentAt(LineDay, today, retention));
            (kept == [] && p == hint) || (kept != [] && Explode(p) == kept)
    ensures forall x :: x in Select(Lines(log), RecentAt(LineDay, today, retention))
                    <==> x in Lines(log) && Abs(LineDay(x) - today) < retention
  {
    var kept := Select(Lines(log), RecentAt(LineDay, today, retention));
    if kept != [] {
      LinesNoNewline(log, RecentAt(LineDay, today, retention));
      ExplodeImplode(kept);
    }
    forall x ensures x in kept <==> x in Lines(log) && Abs(LineDay(x) - today) < retention {
      SelectMember(Lines(log), RecentAt(LineDay, today, retention), x);
    }
  }

  /** A line that starts with the date d.m.y written as DD.MM.YYYY. */
  predicate DatedLine(line: string, d: nat, m: nat, y: nat)
  {
    d < 100 && m < 100 && y < 10000 && |line| >= 10 &&
    line[..2] == TwoDigits(d) && line[2] == '.' &&
    line[3..5] == TwoDigits(m) && line[5] == '.' &&
    line[6..10] == FourDigits(y)
  }

  /** The date prefix is read as the date it spells. */
  lemma {:induction false} DatedLineDay(line: string, d: nat, m: nat, y: nat)
    requires DatedLine(line, d, m, y)
    ensures LineDay(line) == DayNumber(MktimeYear(y), m, d)
  {
    CastOfTwoDigits(d);
    CastOfTwoDigits(m);
    CastOfFourDigits(y);
  }

  /** The age boundary: a line dated R days before today is dropped, one
      dated R - 1 days before today is kept. */
  lemma {:induction false} CleanupBoundary(line: string, d: nat, m: nat, y: nat, today: int, retention: int)
    requires DatedLine(line, d, m, y) && retention > 0
    ensures DayNumber(MktimeYear(y), m, d) == today - retention ==> !Passes(RecentAt(LineDay, today, retention), line)
    ensures DayNumber(MktimeYear(y), m, d) == today - retention + 1 ==> Passes(RecentAt(LineDay, today, retention), line)
  {
    DatedLineDay(line, d, m, y);
  }

  /** A placeholder line has no date prefix: it reads as 30 November 1999
      (day 0 of month 0 of year 0), so cleanup drops it by its age. */
  lemma {:induction false} PlaceholderDay(hint: string)
    requires Placeholder(hint)
    ensures LineDay(hint) == DayNumber(1999, 11, 30)
  {
    CastOfWord(Substr(hint, 0, 2));
    CastOfWord(Substr(hint, 3, 2));
    CastOfWord(Substr(hint, 6, 4));
    assert LineDay(hint) == DayNumber(2000, 0, 0);
    MonthZeroDayZero(2000);
  }

  // ---------------------------------------------------------------- names

  /** The name RenameMessages gives the alarm and event logs and the archive
      variable for a retention of r days. */
  function RetentionName(base: string, r: int): string
  {
    if r == 0 then base + " (deaktiviert)"
    else if r == 1 then base + " (" + IntToString(r) + " Tag)"
    else if r > 1 then base + " (" + IntToString(r) + " Tage)"
    else base
  }

  const StateNamePrefix := "Zustandsmeldungen (letzten "

  /** The name RenameMessages gives the state log for an amount of n messages. */
  function AmountName(n: int): string
  {
    if n == 0 then "Zustandsmeldungen (deaktiviert)"
    else if n == 1 then "Zustandsmeldung (letzte)"
    else if n > 1 then StateNamePrefix + IntToString(n) + ")"
    else "Zustandsmeldung(en)"
  }

  /** A negative retention gives the bare name; otherwise the number after
      " (" reads back as the retention ("(deaktiviert)" as 0), so different
      retentions give different names. */
  lemma {:induction false} RetentionNameReadsBack(base: string, r: int)
    ensures r < 0 <==> RetentionName(base, r) == base
    ensures r >= 0 ==> (StartsWith(RetentionName(base, r), base + " (")
                        && IntCast(RetentionName(base, r)[|base| + 2..]) == r)
  {
    var name := RetentionName(base, r);
    if r == 0 {
      assert name[|base| + 2..] == "deaktiviert)";
      assert SkipSpace("deaktiviert)") == "deaktiviert)";
    } else if r == 1 {
      assert name[|base| + 2..] == NatToString(1) + " Tag)";
      CastOfDecimal(1, " Tag)");
    } else if r > 1 {
      assert name[|base| + 2..] == NatToString(r) + " Tage)";
      CastOfDecimal(r, " Tage)");
    }
    if r >= 0 {
      assert name[..|base| + 2] == base + " (";
    }
  }

  lemma {:induction false} RetentionNameInjective(base: string, r1: int, r2: int)
    requires r1 >= 0 && r2 >= 0 && RetentionName(base, r1) == RetentionName(base, r2)
    ensures r1 == r2
  {
    RetentionNameReadsBack(base, r1);
    RetentionNameReadsBack(base, r2);
  }

  /** For more than one message the state log's name ends in the amount. */
  lemma {:induction false} AmountNameReadsBack(n: int)
    requires n > 1
    ensures StartsWith(AmountName(n), StateNamePrefix)
    ensures IntCast(AmountName(n)[|StateNamePrefix|..]) == n
  {
    assert AmountName(n)[|StateNamePrefix|..] == NatToString(n) + ")";
    CastOfDecimal(n, ")");
  }

  // ---------------------------------------------------------------- instance

  /** The message-log variables of one instance and the properties it reads. */
  class MessageLogs {
    var active: bool        // the 'Active' switch; false means maintenance
    var settings: Settings
    var alarmMessages: string
    var stateMessages: string
    var eventMessages: string
    var archive: seq<string>  // the values written to the MessageArchive variable

    /** Freshly registered variables are empty strings; Active starts true. */
    constructor (settings: Settings)
      ensures active && this.settings == settings
      ensures Snapshot() == Logs("", "", "", [])
    {
      active := true;
      this.settings := settings;
      alarmMessages, stateMessages, eventMessages, archive := "", "", "", [];
    }

    function Snapshot(): Logs
      reads this
    {
      Logs(alarmMessages, stateMessages, eventMessages, archive)
    }

    /** Files a message of the given type (0 event, 1 state, 2 alarm).
        Nothing changes in maintenance or when the lock was not acquired. */
    method UpdateMessages(message: string, messageType: int, locked: bool)
      modifies this
      ensures active == old(active) && settings == old(settings)
      ensures Snapshot() == if old(active) && locked
                            then Ingest(old(Snapshot()), settings, message, messageType)
                            else old(Snapshot())
    {
      if !active {
        return;
      }
      if !locked {
        return;
      }
      if settings.archiveRetention > 0 {
        archive := archive + [message];
      }
      if messageType == EventType {
        if settings.eventRetention > 0 {
          UpdateEventMessages(message);
        }
      } else if messageType == StateType {
        if settings.amountState > 0 {
          UpdateEventMessages(message);
          UpdateStateMessages(message);
        }
      } else if messageType == AlarmType {
        if settings.alarmRetention > 0 {
          UpdateEventMessages(message);
          UpdateAlarmMessages(message);
        }
      }
    }

    method UpdateEventMessages(message: string)
      modifies this
      ensures active == old(active) && settings == old(settings)
      ensures Snapshot() == if active then UpdatedEvent(old(Snapshot()), settings, message) else old(Snapshot())
    {
      if !active {
        return;
      }
      if settings.eventRetention > 0 {
        var content := RemoveFailing(Lines(eventMessages), LacksHint(EventHint));
        eventMessages := Implode([message] + content);
      }
    }

    method UpdateStateMessages(message: string)
      modifies this
      ensures active == old(active) && settings == old(settings)
      ensures Snapshot() == if active then UpdatedState(old(Snapshot()), settings, message) else old(Snapshot())
    {
      if !active {
        return;
      }
      var amount := settings.amountState;
      if amount > 0 {
        if amount == 1 {
          alarmMessages := message;
        } else {
          var content := RemoveFailing(Lines(stateMessages), LacksHint(StateHint));
          content := Take(content, amount - 1);
          ghost var before := stateMessages;
          stateMessages := Implode([message] + content);
          assert stateMessages == PrependedCapped(before, message, StateHint, amount);
        }
      }
    }

    method UpdateAlarmMessages(message: string)
      modifies this
      ensures active == old(active) && settings == old(settings)
      ensures Snapshot() == if active then UpdatedAlarm(old(Snapshot()), settings, message) else old(Snapshot())
    {
      if !active {
        return;
      }
      if settings.alarmRetention > 0 {
        var content := RemoveFailing(Lines(alarmMessages), LacksHint(AlarmHint));
        alarmMessages := Implode([message] + content);
      }
    }

    method DeleteAllMessages()
      modifies this
      ensures active == old(active) && settings == old(settings)
      ensures Snapshot() == Logs(AlarmHint, StateHint, EventHint, old(archive))
    {
      alarmMessages := AlarmHint;
      stateMessages := StateHint;
      eventMessages := EventHint;
    }

    method DeleteEventMessages()
      modifies this
      ensures active == old(active) && settings == old(settings)
      ensures Snapshot() == old(Snapshot()).(event := EventHint)
    {
      eventMessages := EventHint;
    }

    method DeleteStateMessages()
      modifies this
      ensures active == old(active) && settings == old(settings)
      ensures Snapshot() == old(Snapshot()).(state := StateHint)
    {
      stateMessages := StateHint;
    }

    method DeleteAlarmMessages()
      modifies this
      ensures active == old(active) && settings == old(settings)
      ensures Snapshot() == old(Snapshot()).(alarm := AlarmHint)
    {
      alarmMessages := AlarmHint;
    }

    /** The log pruning of CleanUpMessages for the given day number of today. */
    method CleanUpMessages(today: int)
      modifies this
      ensures active == old(active) && settings == old(settings)
      ensures Snapshot() == CleanedUp(old(Snapshot()), settings, today)
    {
      if settings.eventRetention > 0 {
        var content := RemoveFailing(Lines(eventMessages), RecentAt(LineDay, today, settings.eventRetention));
        eventMessages := if content == [] then EventHint else Implode(content);
      }
      if settings.alarmRetention > 0 {
        var content := RemoveFailing(Lines(alarmMessages), RecentAt(LineDay, today, settings.alarmRetention));
        alarmMessages := if content == [] then AlarmHint else Implode(content);
      }
    }

    /** The names of the alarm, state and event logs and of the archive
        variable; a log switched off (0) is cleared to the empty string. */
    method RenameMessages() returns (alarmName: string, stateName: string, eventName: string, archiveName: string)
      modifies this
      ensures active == old(active) && settings == old(settings)
      ensures alarmName == RetentionName("Alarmmeldungen", settings.alarmRetention)
      ensures stateName == AmountName(settings.amountState)
      ensures eventName == RetentionName("Ereignismeldungen", settings.eventRetention)
      ensures archiveName == RetentionName("Archivdaten", settings.archiveRetention)
      ensures Snapshot() == Logs(
        if settings.alarmRetention == 0 then "" else old(alarmMessages),
        if settings.amountState == 0 then "" else old(stateMessages),
        if settings.eventRetention == 0 then "" else old(eventMessages),
        old(archive))
    {
      alarmName := RetentionName("Alarmmeldungen", settings.alarmRetention);
      if settings.alarmRetention == 0 {
        alarmMessages := "";
      }
      stateName := AmountName(settings.amountState);
      if settings.amountState == 0 {
        stateMessages := "";
      }
      eventName := RetentionName("Ereignismeldungen", settings.eventRetention);
      if settings.eventRetention == 0 {
        eventMessages := "";
      }
      archiveName := RetentionName("Archivdaten", settings.archiveRetention);
    }
  }
}

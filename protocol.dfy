/** The monthly and the archive protocol: the messages archived for the
    MessageArchive variable in a period, written below a header and mailed
    to every recipient that is switched on and has an address of at least
    six bytes. Times are Unix seconds. */
module Protocol {
  import opened PhpText
  import opened Calendar

  /** One row of the recipient lists. */
  datatype Recipient = Recipient(use: bool, address: string)

  /** One SMTP_SendMailEx call: mailer instance, address, subject, text. */
  datatype Mail = Mail(mailer: int, address: string, subject: string, body: string)

  /** One value the archive logged, with its time stamp. */
  datatype LoggedValue = LoggedValue(timestamp: int, value: string)

  /** A closed interval of Unix seconds, as AC_GetLoggedValues takes it. */
  datatype Range = Range(start: int, end: int)

  /** The properties the protocols read. */
  datatype ProtocolSettings = ProtocolSettings(
    useMonthly: bool,                 // UseMonthlyProtocol
    monthlySmtp: int,                 // MonthlySMTP
    monthlyDay: int,                  // MonthlyProtocolDay
    archive: int,                     // Archive
    designation: string,              // Designation
    monthlySubject: string,           // MonthlyProtocolSubject
    monthlyRecipients: seq<Recipient>, // MonthlyRecipientList
    useArchive: bool,                 // UseArchiveProtocol
    archiveSmtp: int,                 // ArchiveSMTP
    archiveSubject: string,           // ArchiveProtocolSubject
    archiveRecipients: seq<Recipient>) // ArchiveRecipientList

  const SecondsPerDay := 86400

  /** The text of a protocol without any archived value. */
  const NoEvents := "Es sind keine Ereignisse vorhanden."

  /** 2000-01-01 00:00, where the archive protocol starts. */
  const ArchiveStart := 946684800

  // ---------------------------------------------------------------- period

  /** The German month names of the protocol. */
  function MonthName(m: int): (name: string)
    requires 1 <= m <= 12
    ensures |name| >= 3
  {
    ["Januar", "Februar", "März", "April", "Mai", "Juni", "Juli",
     "August", "September", "Oktober", "November", "Dezember"][m - 1]
  }

  /** The month a German month name stands for; 0 for any other text. */
  function MonthNumber(name: string): int
  {
    if name == "Januar" then 1 else if name == "Februar" then 2
    else if name == "März" then 3 else if name == "April" then 4
    else if name == "Mai" then 5 else if name == "Juni" then 6
    else if name == "Juli" then 7 else if name == "August" then 8
    else if name == "September" then 9 else if name == "Oktober" then 10
    else if name == "November" then 11 else if name == "Dezember" then 12
    else 0
  }

  /** The month name reads back as its month, so different months have
      different names. */
  lemma {:induction false} MonthNameReadsBack(m: int)
    requires 1 <= m <= 12
    ensures MonthNumber(MonthName(m)) == m
  {
    var names := ["Januar", "Februar", "März", "April", "Mai", "Juni", "Juli",
                  "August", "September", "Oktober", "November", "Dezember"];
    assert MonthName(m) == names[m - 1];
    if m == 7 {
      assert names[6][2] == 'l';
    }
  }

  /** Midnight of the first day of a month, in Unix seconds. */
  function MonthStart(ym: YearMonth): int
  {
    (ym.FirstDay() - UnixEpochDay) * SecondsPerDay
  }

  /** Midnight of a day, in Unix seconds. */
  function Midnight(d: Date): int
  {
    (DayNumber(d.year, d.month, d.day) - UnixEpochDay) * SecondsPerDay
  }

  /** The month a protocol period reports on: 1 is the previous month, any
      other period the current one. */
  function ReportMonth(today: Date, period: int): (ym: YearMonth)
    requires today.Valid()
    ensures ym.Valid()
  {
    if period == 1 then today.Month().Previous() else today.Month()
  }

  /** First day of the month at midnight to the last second before the
      first day of the next month. */
  function MonthRange(ym: YearMonth): Range
    requires ym.Valid()
  {
    Range(MonthStart(ym), MonthStart(ym.Next()) - 1)
  }

  /** The reported range is a whole month: from midnight of its first day
      to the last second of its last day. */
  lemma {:induction false} MonthRangeIsWholeMonth(ym: YearMonth)
    requires ym.Valid()
    ensures MonthRange(ym).start == Midnight(Date(ym.year, ym.month, 1))
    ensures MonthRange(ym).end == Midnight(Date(ym.year, ym.month, DaysInMonth(ym.year, ym.month))) + SecondsPerDay - 1
    ensures MonthRange(ym).end - MonthRange(ym).start + 1 == DaysInMonth(ym.year, ym.month) * SecondsPerDay
  {
    var a := ym.FirstDay() - UnixEpochDay;
    var b := ym.Next().FirstDay() - UnixEpochDay;
    var n := DaysInMonth(ym.year, ym.month);
    MonthLength(ym.year, ym.month);
    DaysOfMonth(ym.year, ym.month, n);
    assert b - a == n;
    assert b * SecondsPerDay - a * SecondsPerDay == (b - a) * SecondsPerDay;
    assert Midnight(Date(ym.year, ym.month, n)) == (b - 1) * SecondsPerDay;
  }

  /** Period 0 covers today; period 1 ends right before this month begins. */
  lemma {:induction false} ReportRangeAndToday(today: Date, period: int)
    requires today.Valid()
    ensures var r := MonthRange(ReportMonth(today, period));
            period != 1 ==> r.start <= Midnight(today) && Midnight(today) + SecondsPerDay - 1 <= r.end
    ensures var r := MonthRange(ReportMonth(today, period));
            period == 1 ==> r.end + 1 == MonthStart(today.Month()) && r.end < Midnight(today)
  {
    var ym := today.Month();
    DaysOfMonth(today.year, today.month, today.day);
    if period == 1 {
      assert DayNumber(today.year, today.month, today.day) >= ym.FirstDay();
    }
  }

  /** On 15 March 2024 the last-month protocol reports February 2024: a leap
      month of 29 days. */
  lemma {:induction false} MarchReportsFebruary()
    ensures MonthRange(ReportMonth(Date(2024, 3, 15), 1)) == Range(1706745600, 1709251199)
  {
    assert DaysBeforeYear(2024) == 738885;
    assert UnixEpochDay == 719162;
  }

  /** In January the last-month protocol reports December of the year before. */
  lemma {:induction false} JanuaryReportsDecember(today: Date)
    requires today.Valid() && today.month == 1
    ensures ReportMonth(today, 1) == YearMonth(today.year - 1, 12)
    ensures MonthRange(ReportMonth(today, 1)).end + 1 == MonthStart(YearMonth(today.year, 1))
  {
  }

  /** The archive protocol's fixed start is 1 January 2000 at midnight. */
  lemma {:induction false} ArchiveStartIsNewYear2000()
    ensures ArchiveStart == MonthStart(YearMonth(2000, 1))
  {
    assert DaysBeforeYear(2000) == 730119;
    assert UnixEpochDay == 719162;
  }

  // ---------------------------------------------------------------- archive

  /** AC_GetLoggedValues: the values logged within the range, in the order
      the archive returns them. */
  function Query(logged: seq<LoggedValue>, r: Range): (values: seq<string>)
    ensures |values| <= |logged|
  {
    if logged == [] then []
    else
      var last := logged[|logged| - 1];
      Query(logged[..|logged| - 1], r) + (if r.start <= last.timestamp <= r.end then [last.value] else [])
  }

  /** A value is reported exactly when some entry logged it within the range. */
  lemma {:induction false} QueryMember(logged: seq<LoggedValue>, r: Range, v: string)
    ensures v in Query(logged, r)
        <==> exists i :: 0 <= i < |logged| && logged[i].value == v && r.start <= logged[i].timestamp <= r.end
    decreases |logged|
  {
    if logged != [] {
      var n := |logged| - 1;
      QueryMember(logged[..n], r, v);
      if v in Query(logged, r) && v !in Query(logged[..n], r) {
        assert logged[n].value == v && r.start <= logged[n].timestamp <= r.end;
      }
      if exists i :: 0 <= i < |logged| && logged[i].value == v && r.start <= logged[i].timestamp <= r.end {
        var i :| 0 <= i < |logged| && logged[i].value == v && r.start <= logged[i].timestamp <= r.end;
        if i < n {
          assert logged[..n][i] == logged[i];
        }
      }
    }
  }

  /** Entries logged within the range keep their order. */
  lemma {:induction false} QueryAppend(a: seq<LoggedValue>, b: seq<LoggedValue>, r: Range)
    ensures Query(a + b, r) == Query(a, r) + Query(b, r)
    decreases |b|
  {
    if b == [] {
      assert a + b == a;
    } else {
      var n := |b| - 1;
      assert (a + b)[..|a + b| - 1] == a + b[..n];
      QueryAppend(a, b[..n], r);
    }
  }

  // ---------------------------------------------------------------- text

  /** The values, each followed by a newline. */
  function Joined(values: seq<string>): string
  {
    if values == [] then "" else Joined(values[..|values| - 1]) + values[|values| - 1] + "\n"
  }

  /** The text of a protocol: the header, then the values or NoEvents. */
  function Body(header: string, values: seq<string>): string
  {
    header + (if values == [] then NoEvents else Joined(values))
  }

  /** The title line before ":\n\n\n". */
  function Header(title: string): string
  {
    title + ":\n\n\n"
  }

  function MonthlyTitle(ym: YearMonth, designation: string): string
    requires ym.Valid()
  {
    "Monatsprotokoll " + MonthName(ym.month) + " " + YearText(ym.year) + ", " + designation
  }

  function MonthlySubject(subject: string, ym: YearMonth, designation: string): string
    requires ym.Valid()
  {
    subject + " " + MonthName(ym.month) + " " + YearText(ym.year) + ", " + designation
  }

  function ArchiveTitle(designation: string): string
  {
    "Archivprotokoll " + designation
  }

  function ArchiveSubject(subject: string, designation: string): string
  {
    subject + " " + designation
  }

  /** With the default subjects the subject is the protocol's title line. */
  lemma {:induction false} DefaultSubjectIsTitle(ym: YearMonth, designation: string)
    requires ym.Valid()
    ensures MonthlySubject("Monatsprotokoll", ym, designation) == MonthlyTitle(ym, designation)
    ensures ArchiveSubject("Archivprotokoll", designation) == ArchiveTitle(designation)
  {
  }

  /** The values written one per line split back into the values, with one
      empty piece after the last newline. */
  lemma {:induction false} JoinedLines(values: seq<string>)
    requires forall i :: 0 <= i < |values| ==> '\n' !in values[i]
    ensures Explode(Joined(values)) == values + [""]
  {
    if values != [] {
      var n := |values| - 1;
      var joined := Joined(values[..n]) + values[n] + "\n";
      assert Joined(values) == joined;
      assert joined + "" == joined;
      JoinedPrefix(values[..n], values[n], "");
      assert Explode("") == [""];
      assert values[..n] + [values[n]] + [""] == values + [""];
    }
  }

  /** A joined prefix splits off piece by piece in front of the rest. */
  lemma {:induction false} JoinedPrefix(front: seq<string>, last: string, rest: string)
    requires forall i :: 0 <= i < |front| ==> '\n' !in front[i]
    requires '\n' !in last
    ensures Explode(Joined(front) + last + "\n" + rest) == front + [last] + Explode(rest)
    decreases |front|
  {
    if front == [] {
      assert Joined(front) + last + "\n" + rest == last + "\n" + rest;
      ExplodeCons(last, rest);
    } else {
      var n := |front| - 1;
      var f2, l2 := front[..n], front[n];
      assert Joined(front) + last + "\n" + rest == Joined(f2) + l2 + "\n" + (last + "\n" + rest);
      JoinedPrefix(f2, l2, last + "\n" + rest);
      ExplodeCons(last, rest);
      assert f2 + [l2] == front;
    }
  }

  /** A protocol's lines: the title with its colon, two empty lines, then
      either NoEvents or every value on a line of its own, in order. */
  lemma {:induction false} BodyLines(title: string, values: seq<string>)
    requires '\n' !in title
    requires forall i :: 0 <= i < |values| ==> '\n' !in values[i]
    ensures values == [] ==> Explode(Body(Header(title), values)) == [title + ":", "", "", NoEvents]
    ensures values != [] ==> Explode(Body(Header(title), values)) == [title + ":", "", ""] + values + [""]
  {
    var rest := if values == [] then NoEvents else Joined(values);
    assert Explode(Body(Header(title), values)) == [title + ":", "", ""] + Explode(rest) by {
      HeaderLines(title, rest);
    }
    if values == [] {
      NoEventsLine();
    } else {
      JoinedLines(values);
    }
  }

  /** NoEvents is a single line. */
  lemma {:induction false} NoEventsLine()
    ensures Explode(NoEvents) == [NoEvents]
  {
    NoEventsNoNewline();
    ExplodeSingle(NoEvents);
  }

  lemma {:induction false} NoEventsNoNewline()
    ensures '\n' !in NoEvents
  {
    assert NoEvents[0] == 'E';
  }

  /** The header splits into the title line and two empty lines. */
  lemma {:induction false} HeaderLines(title: string, rest: string)
    requires '\n' !in title
    ensures Explode(Header(title) + rest) == [title + ":", "", ""] + Explode(rest)
  {
    var t := title + ":";
    assert Header(title) + rest == t + "\n" + ("" + "\n" + ("" + "\n" + rest));
    ExplodeCons(t, "" + "\n" + ("" + "\n" + rest));
    ExplodeCons("", "" + "\n" + rest);
    ExplodeCons("", rest);
  }

  // ---------------------------------------------------------------- mails

  /** A recipient that is switched on and whose address has at least six bytes. */
  predicate Deliverable(r: Recipient)
  {
    r.use && StrLen(r.address) >= 6
  }

  /** The mails of the recipient loop, in the order of the list. */
  function Mails(mailer: int, recipients: seq<Recipient>, subject: string, body: string): (ms: seq<Mail>)
    ensures |ms| <= |recipients|
    ensures forall i :: 0 <= i < |ms| ==> ms[i].mailer == mailer && ms[i].subject == subject && ms[i].body == body
  {
    if recipients == [] then []
    else
      var last := recipients[|recipients| - 1];
      Mails(mailer, recipients[..|recipients| - 1], subject, body)
        + (if Deliverable(last) then [Mail(mailer, last.address, subject, body)] else [])
  }

  /** An address gets the mail exactly when a deliverable row carries it. */
  lemma {:induction false} MailsMember(mailer: int, recipients: seq<Recipient>, subject: string, body: string, address: string)
    ensures Mail(mailer, address, subject, body) in Mails(mailer, recipients, subject, body)
        <==> exists i :: 0 <= i < |recipients| && recipients[i].address == address && Deliverable(recipients[i])
    decreases |recipients|
  {
    if recipients != [] {
      var n := |recipients| - 1;
      var m := Mail(mailer, address, subject, body);
      MailsMember(mailer, recipients[..n], subject, body, address);
      if m in Mails(mailer, recipients, subject, body) && m !in Mails(mailer, recipients[..n], subject, body) {
        assert recipients[n].address == address && Deliverable(recipients[n]);
      }
      if exists i :: 0 <= i < |recipients| && recipients[i].address == address && Deliverable(recipients[i]) {
        var i :| 0 <= i < |recipients| && recipients[i].address == address && Deliverable(recipients[i]);
        if i < n {
          assert recipients[..n][i] == recipients[i];
        }
      }
    }
  }

  /** The mails follow the order of the list: the mails of a longer list
      are those of its first part followed by those of the rest. */
  lemma {:induction false} MailsAppend(mailer: int, a: seq<Recipient>, b: seq<Recipient>, subject: string, body: string)
    ensures Mails(mailer, a + b, subject, body) == Mails(mailer, a, subject, body) + Mails(mailer, b, subject, body)
    decreases |b|
  {
    if b == [] {
      assert a + b == a;
    } else {
      var n := |b| - 1;
      assert (a + b)[..|a + b| - 1] == a + b[..n];
      MailsAppend(mailer, a, b[..n], subject, body);
    }
  }

  /** The number of deliverable rows. */
  function CountDeliverable(recipients: seq<Recipient>): nat
  {
    if recipients == [] then 0
    else CountDeliverable(recipients[..|recipients| - 1]) + (if Deliverable(recipients[|recipients| - 1]) then 1 else 0)
  }

  /** One mail per deliverable row. */
  lemma {:induction false} MailsCount(mailer: int, recipients: seq<Recipient>, subject: string, body: string)
    ensures |Mails(mailer, recipients, subject, body)| == CountDeliverable(recipients)
    decreases |recipients|
  {
    if recipients != [] {
      MailsCount(mailer, recipients[..|recipients| - 1], subject, body);
    }
  }

  /** The count is 0 exactly when no row is deliverable. */
  lemma {:induction false} NoneDeliverable(recipients: seq<Recipient>)
    ensures CountDeliverable(recipients) == 0 <==> forall i :: 0 <= i < |recipients| ==> !Deliverable(recipients[i])
    decreases |recipients|
  {
    if recipients != [] {
      var n := |recipients| - 1;
      NoneDeliverable(recipients[..n]);
      assert forall i :: 0 <= i < n ==> recipients[..n][i] == recipients[i];
    }
  }

  /** No mail goes out exactly when no row is deliverable. */
  lemma {:induction false} NoMails(mailer: int, recipients: seq<Recipient>, subject: string, body: string)
    ensures Mails(mailer, recipients, subject, body) == [] <==> forall i :: 0 <= i < |recipients| ==> !Deliverable(recipients[i])
  {
    MailsCount(mailer, recipients, subject, body);
    NoneDeliverable(recipients);
  }

  /** For an ASCII address the six-byte bound is a six-character bound: a
      row gets a mail exactly when it is switched on and its address has at
      least six characters. */
  lemma {:induction false} AsciiDeliverable(r: Recipient)
    requires forall i :: 0 <= i < |r.address| ==> r.address[i] as int < 0x80
    ensures Deliverable(r) <==> r.use && |r.address| >= 6
  {
    StrLenAscii(r.address);
  }

  // ---------------------------------------------------------------- protocols

  /** An SMTP instance id that is neither the root (0) nor "none" (1) and exists. */
  predicate ValidMailer(id: int, objects: set<int>)
  {
    id > 1 && id in objects
  }

  /** Whether the monthly protocol goes out, past the maintenance and the
      UseMonthlyProtocol checks. */
  predicate MonthlyDue(s: ProtocolSettings, checkDay: bool, today: Date, objects: set<int>)
  {
    ValidMailer(s.monthlySmtp, objects) && (today.day == s.monthlyDay || !checkDay) && s.archive != 0
  }

  /** The mails the monthly protocol sends. */
  function MonthlyMails(s: ProtocolSettings, checkDay: bool, period: int, today: Date,
                        objects: set<int>, logged: seq<LoggedValue>): seq<Mail>
    requires today.Valid()
  {
    if MonthlyDue(s, checkDay, today, objects) then
      var ym := ReportMonth(today, period);
      var text := Body(Header(MonthlyTitle(ym, s.designation)), Query(logged, MonthRange(ym)));
      Mails(s.monthlySmtp, s.monthlyRecipients, MonthlySubject(s.monthlySubject, ym, s.designation), text)
    else []
  }

  /** The mails the archive protocol sends, past the maintenance and the
      UseArchiveProtocol checks. */
  function ArchiveMails(s: ProtocolSettings, now: int, objects: set<int>, logged: seq<LoggedValue>): seq<Mail>
  {
    if ValidMailer(s.archiveSmtp, objects) then
      var text := Body(Header(ArchiveTitle(s.designation)), Query(logged, Range(ArchiveStart, now)));
      Mails(s.archiveSmtp, s.archiveRecipients, ArchiveSubject(s.archiveSubject, s.designation), text)
    else []
  }

  /** The monthly protocol goes out exactly when it is due and some row is
      deliverable; every mail goes through the monthly SMTP instance. */
  lemma {:induction false} MonthlySentIff(s: ProtocolSettings, checkDay: bool, period: int, today: Date,
                                          objects: set<int>, logged: seq<LoggedValue>)
    requires today.Valid()
    ensures MonthlyMails(s, checkDay, period, today, objects, logged) != []
        <==> MonthlyDue(s, checkDay, today, objects)
             && exists i :: 0 <= i < |s.monthlyRecipients| && Deliverable(s.monthlyRecipients[i])
    ensures forall m :: m in MonthlyMails(s, checkDay, period, today, objects, logged) ==> m.mailer == s.monthlySmtp
  {
    if MonthlyDue(s, checkDay, today, objects) {
      var ym := ReportMonth(today, period);
      var text := Body(Header(MonthlyTitle(ym, s.designation)), Query(logged, MonthRange(ym)));
      NoMails(s.monthlySmtp, s.monthlyRecipients, MonthlySubject(s.monthlySubject, ym, s.designation), text);
    }
  }

  /** The archive protocol goes out exactly when its mailer is valid and some
      row is deliverable. */
  lemma {:induction false} ArchiveSentIff(s: ProtocolSettings, now: int, objects: set<int>, logged: seq<LoggedValue>)
    ensures ArchiveMails(s, now, objects, logged) != []
        <==> ValidMailer(s.archiveSmtp, objects)
             && exists i :: 0 <= i < |s.archiveRecipients| && Deliverable(s.archiveRecipients[i])
  {
    if ValidMailer(s.archiveSmtp, objects) {
      var text := Body(Header(ArchiveTitle(s.designation)), Query(logged, Range(ArchiveStart, now)));
      NoMails(s.archiveSmtp, s.archiveRecipients, ArchiveSubject(s.archiveSubject, s.designation), text);
    }
  }

  // ---------------------------------------------------------------- instance

  /** The protocol side of one instance: what it mails and the interval of
      its SendMonthlyProtocol timer. */
  class ProtocolSender {
    var active: bool            // the 'Active' switch; false means maintenance
    var settings: ProtocolSettings
    var outbox: seq<Mail>       // every SMTP_SendMailEx call so far, in order
    var monthlyTimer: int       // interval of the SendMonthlyProtocol timer

    constructor (settings: ProtocolSettings)
      ensures active && this.settings == settings && outbox == [] && monthlyTimer == 0
    {
      active := true;
      this.settings := settings;
      outbox := [];
      monthlyTimer := 0;
    }

    /** The text loop: the header, then each value followed by a newline, or
        NoEvents when there is none. */
    static method RenderBody(header: string, values: seq<string>) returns (text: string)
      ensures text == Body(header, values)
    {
      text := header;
      if values == [] {
        text := text + NoEvents;
      } else {
        var i := 0;
        while i < |values|
          invariant 0 <= i <= |values|
          invariant text == header + Joined(values[..i])
        {
          assert values[..i + 1][..i] == values[..i];
          text := text + values[i] + "\n";
          i := i + 1;
        }
        assert values[..|values|] == values;
      }
    }

    /** The recipient loop: one mail per deliverable row, in list order. */
    method SendToRecipients(mailer: int, recipients: seq<Recipient>, subject: string, body: string)
      modifies this
      ensures active == old(active) && settings == old(settings) && monthlyTimer == old(monthlyTimer)
      ensures outbox == old(outbox) + Mails(mailer, recipients, subject, body)
    {
      var i := 0;
      while i < |recipients|
        invariant 0 <= i <= |recipients|
        invariant active == old(active) && settings == old(settings) && monthlyTimer == old(monthlyTimer)
        invariant outbox == old(outbox) + Mails(mailer, recipients[..i], subject, body)
      {
        assert recipients[..i + 1][..i] == recipients[..i];
        var recipient := recipients[i];
        if recipient.use {
          if StrLen(recipient.address) >= 6 {
            outbox := outbox + [Mail(mailer, recipient.address, subject, body)];
          }
        }
        i := i + 1;
      }
      assert recipients[..|recipients|] == recipients;
    }

    /** Sends the protocol of this month (period 0) or of the last month
        (period 1) on the protocol day, or on any day when checkDay is false;
        re-arms the timer unless in maintenance or switched off. */
    method SendMonthlyProtocol(checkDay: bool, period: int, today: Date, objects: set<int>,
                               logged: seq<LoggedValue>, interval: int)
      requires today.Valid()
      modifies this
      ensures active == old(active) && settings == old(settings)
      ensures if old(active) && settings.useMonthly
              then outbox == old(outbox) + MonthlyMails(settings, checkDay, period, today, objects, logged)
                   && monthlyTimer == interval
              else outbox == old(outbox) && monthlyTimer == old(monthlyTimer)
    {
      if !active {
        return;
      }
      if !settings.useMonthly {
        return;
      }
      var smtp := settings.monthlySmtp;
      if smtp > 1 && smtp in objects {
        if today.day == settings.monthlyDay || !checkDay {
          if settings.archive != 0 {
            var ym := ReportMonth(today, period);
            var range := MonthRange(ym);
            var values := Query(logged, range);
            var text := RenderBody(Header(MonthlyTitle(ym, settings.designation)), values);
            var subject := MonthlySubject(settings.monthlySubject, ym, settings.designation);
            SendToRecipients(smtp, settings.monthlyRecipients, subject, text);
          }
        }
      }
      monthlyTimer := interval;
    }

    /** Sends every value archived from 2000-01-01 up to now. */
    method SendArchiveProtocol(now: int, objects: set<int>, logged: seq<LoggedValue>)
      modifies this
      ensures active == old(active) && settings == old(settings) && monthlyTimer == old(monthlyTimer)
      ensures outbox == old(outbox) + (if old(active) && settings.useArchive
                                       then ArchiveMails(settings, now, objects, logged) else [])
    {
      if !active {
        return;
      }
      if !settings.useArchive {
        return;
      }
      var smtp := settings.archiveSmtp;
      if smtp > 1 && smtp in objects {
        var values := Query(logged, Range(ArchiveStart, now));
        var text := RenderBody(Header(ArchiveTitle(settings.designation)), values);
        SendToRecipients(smtp, settings.archiveRecipients, ArchiveSubject(settings.archiveSubject, settings.designation), text);
      }
    }
  }
}

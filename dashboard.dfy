/** The data logic of the auditor dashboard (ui/auditor_dashboard.py): the
    follow-up state of each company derived from its email history, the
    overview counters, the company cards, the company search, the overdue
    report and the masking of the configured mailbox address.

    Every timestamp is an already normalised instant (seconds, naive UTC);
    `now` and the follow-up threshold are parameters, read once per pass. */
module Dashboard {
  import opened Common
  import opened Text
  import opened Calendar

  /** A stored email as the dashboard reads it: company, direction, date. */
  datatype Email = Email(companyId: int, dir: Direction, t: int)

  /** A company row; a missing (NULL) field is `None`. */
  datatype Company = Company(id: int, uifRef: Option<string>, tradeName: Option<string>,
                             email: Option<string>, altEmail: Option<string>)

  /** The per-company follow-up state the overview distinguishes. */
  datatype FollowUp = NoContactYet | Replied | AwaitingReply | DueTomorrow | Overdue

  /** The six overview counters. */
  datatype Summary = Summary(totalCompanies: nat, sentToday: nat, overdue: nat,
                             dueTomorrow: nat, zeroReplies: nat, emailedAtLeast10: nat)

  /** One company card of the "Company activity" grid. `lastContact` is the
      day shown as YYYY-MM-DD, `None` where the source shows ''. */
  datatype CardRow = CardRow(uifRef: Option<string>, tradeName: Option<string>,
                             email: Option<string>, altEmail: Option<string>,
                             sent: nat, repliesSince: nat, lastContact: Option<int>,
                             daysSinceContact: Option<nat>, nonCompliant: bool)

  /** One row of the overdue report; its 'Last Reply' column is always the
      text 'No reply' and is not carried. */
  datatype ReportRow = ReportRow(uifRef: Option<string>, tradeName: Option<string>,
                                 email: Option<string>, lastSentDay: int, workingDaysSince: nat)

  /** The `followup_days` setting as stored: absent or empty, an integer, or
      text `int()` rejects. */
  datatype Setting = Missing | Numeric(n: int) | Malformed

  const DefaultFollowupDays: int := 3
  const HighVolume: nat := 10

  // ---------------------------------------------------------------------
  // Per-company derivations

  predicate From(e: Email, cid: int, dir: Direction)
  {
    e.companyId == cid && e.dir == dir
  }

  /** The latest timestamp among the company's emails in one direction
      (pandas `max`), `None` when there is none. */
  function Latest(emails: seq<Email>, cid: int, dir: Direction): (r: Option<int>)
    ensures r.None? <==> forall i :: 0 <= i < |emails| ==> !From(emails[i], cid, dir)
    ensures r.Some? ==> exists i :: 0 <= i < |emails| && From(emails[i], cid, dir) && emails[i].t == r.value
    ensures r.Some? ==> forall i :: 0 <= i < |emails| && From(emails[i], cid, dir) ==> emails[i].t <= r.value
  {
    if emails == [] then None
    else
      var rest := Latest(emails[1..], cid, dir);
      assert forall i :: 1 <= i < |emails| ==> emails[i] == emails[1..][i - 1];
      if !From(emails[0], cid, dir) then rest
      else if rest.Some? && rest.value > emails[0].t then rest
      else Some(emails[0].t)
  }

  function SentBy(cid: int, dir: Direction): Email -> bool
  {
    (e: Email) => From(e, cid, dir)
  }

  function RepliedAfter(cid: int, t: int): Email -> bool
  {
    (e: Email) => From(e, cid, Incoming) && e.t > t
  }

  /** Number of the company's emails in one direction. */
  function CountFrom(emails: seq<Email>, cid: int, dir: Direction): nat
  {
    Count(emails, SentBy(cid, dir))
  }

  /** Number of the company's incoming emails strictly after `t`. */
  function RepliesAfter(emails: seq<Email>, cid: int, t: int): nat
  {
    Count(emails, RepliedAfter(cid, t))
  }

  /** The follow-up state of one company: without an outgoing email there is
      nothing to follow up; an incoming email after the latest outgoing one
      closes it; otherwise the working days since the latest outgoing email
      are compared with the threshold. */
  function Classify(holidays: set<int>, emails: seq<Email>, cid: int, now: int, threshold: int): FollowUp
  {
    match Latest(emails, cid, Outgoing)
    case None => NoContactYet
    case Some(last) =>
      if RepliesAfter(emails, cid, last) > 0 then Replied
      else
        var days := CountWorkingDays(holidays, last, now);
        if days > threshold then Overdue
        else if days == threshold then DueTomorrow
        else AwaitingReply
  }

  /** The company's latest email is email `i`, and it is outgoing: no
      incoming email is strictly later. */
  ghost predicate LatestIsOutgoing(emails: seq<Email>, cid: int, i: int)
  {
    0 <= i < |emails| && From(emails[i], cid, Outgoing)
    && forall j :: 0 <= j < |emails| && emails[j].companyId == cid ==> emails[j].t <= emails[i].t
  }

  lemma RepliesAfterLatest(emails: seq<Email>, cid: int, last: int)
    requires Latest(emails, cid, Outgoing) == Some(last)
    ensures RepliesAfter(emails, cid, last) == 0
        <==> forall j :: 0 <= j < |emails| && From(emails[j], cid, Incoming) ==> emails[j].t <= last
  {
    CountZero(emails, RepliedAfter(cid, last));
  }

  /** A company is counted overdue exactly when it has an outgoing email, no
      incoming email is later than its latest outgoing one, and more working
      days than the threshold have passed since that outgoing email. */
  lemma OverdueIff(holidays: set<int>, emails: seq<Email>, cid: int, now: int, threshold: int)
    ensures Classify(holidays, emails, cid, now, threshold) == Overdue
        <==> exists i :: LatestIsOutgoing(emails, cid, i)
                         && CountWorkingDays(holidays, emails[i].t, now) > threshold
  {
    LatestOutgoingIff(emails, cid);
  }

  /** Due tomorrow is the same condition with the working days equal to the
      threshold; no company is both overdue and due tomorrow. */
  lemma DueTomorrowIff(holidays: set<int>, emails: seq<Email>, cid: int, now: int, threshold: int)
    ensures Classify(holidays, emails, cid, now, threshold) == DueTomorrow
        <==> exists i :: LatestIsOutgoing(emails, cid, i)
                         && CountWorkingDays(holidays, emails[i].t, now) == threshold
  {
    LatestOutgoingIff(emails, cid);
  }

  /** The follow-up is open (not NoContactYet, not Replied) exactly when the
      company's latest email is an outgoing one, and its time is the one
      the working days are counted from. */
  lemma LatestOutgoingIff(emails: seq<Email>, cid: int)
    ensures (Latest(emails, cid, Outgoing).Some?
             && RepliesAfter(emails, cid, Latest(emails, cid, Outgoing).value) == 0)
        <==> exists i :: LatestIsOutgoing(emails, cid, i)
    ensures forall i :: LatestIsOutgoing(emails, cid, i) ==> Latest(emails, cid, Outgoing) == Some(emails[i].t)
  {
    var last := Latest(emails, cid, Outgoing);
    if last.Some? {
      RepliesAfterLatest(emails, cid, last.value);
      if RepliesAfter(emails, cid, last.value) == 0 {
        var i :| 0 <= i < |emails| && From(emails[i], cid, Outgoing) && emails[i].t == last.value;
        assert LatestIsOutgoing(emails, cid, i);
      }
    }
  }

  // ---------------------------------------------------------------------
  // Threshold setting

  /** The overview's reading of `followup_days`: `int(value or 3)`, and 3
      whenever that raises. */
  function OverviewThreshold(s: Setting): (t: int)
    ensures s.Numeric? ==> t == s.n
    ensures !s.Numeric? ==> t == DefaultFollowupDays
  {
    match s
    case Numeric(n) => n
    case _ => DefaultFollowupDays
  }

  /** The overdue tab's reading: `int(value or 3)` with no handler, so a
      malformed value aborts the tab (`None`). */
  function OverdueTabThreshold(s: Setting): (t: Option<int>)
    ensures t.None? <==> s.Malformed?
    ensures t.Some? ==> t.value == OverviewThreshold(s)
  {
    match s
    case Missing => Some(DefaultFollowupDays)
    case Numeric(n) => Some(n)
    case Malformed => None
  }

  // ---------------------------------------------------------------------
  // Overview counters (show_overview_tab, lines 90-138)

  function IsOverdue(holidays: set<int>, emails: seq<Email>, now: int, threshold: int): Company -> bool
  {
    (c: Company) => Classify(holidays, emails, c.id, now, threshold) == Overdue
  }

  function IsDueTomorrow(holidays: set<int>, emails: seq<Email>, now: int, threshold: int): Company -> bool
  {
    (c: Company) => Classify(holidays, emails, c.id, now, threshold) == DueTomorrow
  }

  /** Sent at least once and never received anything, whenever. */
  function HasZeroReplies(emails: seq<Email>): Company -> bool
  {
    (c: Company) => CountFrom(emails, c.id, Outgoing) > 0 && CountFrom(emails, c.id, Incoming) == 0
  }

  function SentAtLeast10(emails: seq<Email>): Company -> bool
  {
    (c: Company) => CountFrom(emails, c.id, Outgoing) >= HighVolume
  }

  function SentOnDay(day: int): Email -> bool
  {
    (e: Email) => e.dir == Outgoing && DayOf(e.t) == day
  }

  /** Outgoing emails, of any company, whose date is today's date. */
  function SentToday(emails: seq<Email>, now: int): nat
  {
    Count(emails, SentOnDay(DayOf(now)))
  }

  /** The counter loop of the overview. */
  method Overview(calculator: WorkingDayCalculator, companies: seq<Company>, emails: seq<Email>,
                  now: int, threshold: int) returns (s: Summary)
    ensures s.totalCompanies == |companies|
    ensures s.sentToday == SentToday(emails, now)
    ensures s.overdue == Count(companies, IsOverdue(calculator.holidays, emails, now, threshold))
    ensures s.dueTomorrow == Count(companies, IsDueTomorrow(calculator.holidays, emails, now, threshold))
    ensures s.zeroReplies == Count(companies, HasZeroReplies(emails))
    ensures s.emailedAtLeast10 == Count(companies, SentAtLeast10(emails))
  {
    var sentToday := 0;
    if |emails| > 0 {
      sentToday := SentToday(emails, now);
    }
    var isOverdue, isDue := IsOverdue(calculator.holidays, emails, now, threshold),
                            IsDueTomorrow(calculator.holidays, emails, now, threshold);
    var overdue, dueTomorrow, zeroReplies, emailedGt10 := 0, 0, 0, 0;
    for i := 0 to |companies|
      invariant overdue == Count(companies[..i], isOverdue)
      invariant dueTomorrow == Count(companies[..i], isDue)
      invariant zeroReplies == Count(companies[..i], HasZeroReplies(emails))
      invariant emailedGt10 == Count(companies[..i], SentAtLeast10(emails))
    {
      var zero, high, over, due := CompanyCounters(calculator, emails, companies[i], now, threshold);
      CountStep(companies, i, isOverdue);
      CountStep(companies, i, isDue);
      CountStep(companies, i, HasZeroReplies(emails));
      CountStep(companies, i, SentAtLeast10(emails));
      if zero {
        zeroReplies := zeroReplies + 1;
      }
      if high {
        emailedGt10 := emailedGt10 + 1;
      }
      if over {
        overdue := overdue + 1;
      } else if due {
        dueTomorrow := dueTomorrow + 1;
      }
    }
    assert companies[..|companies|] == companies;
    s := Summary(|companies|, sentToday, overdue, dueTomorrow, zeroReplies, emailedGt10);
  }

  /** The body of the counter loop for one company: which of the zero-reply,
      high-volume, overdue and due-tomorrow counters it adds to. */
  method CompanyCounters(calculator: WorkingDayCalculator, emails: seq<Email>, c: Company,
                         now: int, threshold: int) returns (zero: bool, high: bool, over: bool, due: bool)
    ensures zero == HasZeroReplies(emails)(c)
    ensures high == SentAtLeast10(emails)(c)
    ensures over == IsOverdue(calculator.holidays, emails, now, threshold)(c)
    ensures due == IsDueTomorrow(calculator.holidays, emails, now, threshold)(c)
    ensures !(over && due)
  {
    var lastSent := Latest(emails, c.id, Outgoing);
    var sentCount := CountFrom(emails, c.id, Outgoing);
    zero, high, over, due := false, false, false, false;
    if sentCount > 0 {
      var totalIncoming := CountFrom(emails, c.id, Incoming);
      if totalIncoming == 0 {
        zero := true;
      }
    }
    if sentCount >= HighVolume {
      high := true;
    }
    if lastSent.Some? && RepliesAfter(emails, c.id, lastSent.value) == 0 {
      var daysSince := calculator.WorkingDaysBetween(lastSent.value, now);
      if daysSince > threshold {
        over := true;
      } else if daysSince == threshold {
        due := true;
      }
    }
  }

  /** Overdue and due-tomorrow companies are disjoint, so together they never
      outnumber the companies; a company that never sent counts in neither
      the zero-reply nor the high-volume counter. */
  lemma {:induction false} OverviewCountsBounded(holidays: set<int>, companies: seq<Company>,
                                                  emails: seq<Email>, now: int, threshold: int)
    ensures Count(companies, IsOverdue(holidays, emails, now, threshold))
          + Count(companies, IsDueTomorrow(holidays, emails, now, threshold)) <= |companies|
    ensures Count(companies, HasZeroReplies(emails))
         <= Count(companies, (c: Company) => CountFrom(emails, c.id, Outgoing) > 0)
    ensures Count(companies, SentAtLeast10(emails))
         <= Count(companies, (c: Company) => CountFrom(emails, c.id, Outgoing) > 0)
  {
    if companies != [] {
      OverviewCountsBounded(holidays, companies[1..], emails, now, threshold);
    }
  }

  /** The sent-today counter is the number of positions holding an outgoing
      email dated today, and never exceeds the number of outgoing emails. */
  lemma SentTodayIsOutgoingToday(emails: seq<Email>, now: int)
    ensures SentToday(emails, now)
         == |set i | 0 <= i < |emails| && emails[i].dir == Outgoing && DayOf(emails[i].t) == DayOf(now)|
  {
    CountIsPositionsSize(emails, SentOnDay(DayOf(now)));
    assert Positions(emails, SentOnDay(DayOf(now)))
        == set i | 0 <= i < |emails| && emails[i].dir == Outgoing && DayOf(emails[i].t) == DayOf(now);
  }

  // ---------------------------------------------------------------------
  // Company cards (show_overview_tab, lines 241-275)

  function MaxOption(a: Option<int>, b: Option<int>): Option<int>
  {
    match (a, b)
    case (None, _) => b
    case (_, None) => a
    case (Some(x), Some(y)) => Some(if x >= y then x else y)
  }

  /** The card of one company. */
  function CardFor(holidays: set<int>, emails: seq<Email>, c: Company, now: int): CardRow
  {
    var lastSent := Latest(emails, c.id, Outgoing);
    var lastIn := Latest(emails, c.id, Incoming);
    var lastContact := MaxOption(lastSent, lastIn);
    var sent := CountFrom(emails, c.id, Outgoing);
    CardRow(c.uifRef, c.tradeName, c.email, c.altEmail, sent,
            if lastSent.Some? then RepliesAfter(emails, c.id, lastSent.value) else 0,
            if lastContact.Some? then Some(DayOf(lastContact.value)) else None,
            if lastContact.Some? then Some(CountWorkingDays(holidays, lastContact.value, now)) else None,
            sent >= HighVolume)
  }

  /** The card loop: one card per company of the (filtered) view, in order. */
  method BuildCards(calculator: WorkingDayCalculator, view: seq<Company>, emails: seq<Email>, now: int)
    returns (rows: seq<CardRow>)
    ensures |rows| == |view|
    ensures forall i :: 0 <= i < |view| ==> rows[i] == CardFor(calculator.holidays, emails, view[i], now)
  {
    rows := [];
    for i := 0 to |view|
      invariant |rows| == i
      invariant forall k :: 0 <= k < i ==> rows[k] == CardFor(calculator.holidays, emails, view[k], now)
    {
      var c := view[i];
      var lastSent := Latest(emails, c.id, Outgoing);
      var lastIn := Latest(emails, c.id, Incoming);
      var lastContact := MaxOption(lastSent, lastIn);
      var repliesSince := 0;
      if lastSent.Some? {
        repliesSince := RepliesAfter(emails, c.id, lastSent.value);
      }
      var sentCount := CountFrom(emails, c.id, Outgoing);
      var daysSinceContact: Option<nat> := None;
      if lastContact.Some? {
        var d := calculator.WorkingDaysBetween(lastContact.value, now);
        daysSinceContact := Some(d);
      }
      var shown := if lastContact.Some? then Some(DayOf(lastContact.value)) else None;
      rows := rows + [CardRow(c.uifRef, c.tradeName, c.email, c.altEmail, sentCount, repliesSince,
                              shown, daysSinceContact, sentCount >= HighVolume)];
    }
  }

  /** The last-contact column is the date of the company's latest email in
      either direction, and it and the working-days column are blank exactly
      when the company has no email at all. */
  lemma CardLastContact(holidays: set<int>, emails: seq<Email>, c: Company, now: int)
    ensures CardFor(holidays, emails, c, now).lastContact.None?
        <==> forall i :: 0 <= i < |emails| ==> emails[i].companyId != c.id
    ensures CardFor(holidays, emails, c, now).daysSinceContact.None?
        <==> CardFor(holidays, emails, c, now).lastContact.None?
    ensures CardFor(holidays, emails, c, now).lastContact.Some? ==>
        exists i :: 0 <= i < |emails| && emails[i].companyId == c.id
                    && DayOf(emails[i].t) == CardFor(holidays, emails, c, now).lastContact.value
    ensures CardFor(holidays, emails, c, now).lastContact.Some? ==>
        forall i :: 0 <= i < |emails| && emails[i].companyId == c.id
                    ==> DayOf(emails[i].t) <= CardFor(holidays, emails, c, now).lastContact.value
  {
    var lastSent, lastIn := Latest(emails, c.id, Outgoing), Latest(emails, c.id, Incoming);
    var lastContact := MaxOption(lastSent, lastIn);
    if lastContact.Some? {
      forall i | 0 <= i < |emails| && emails[i].companyId == c.id
        ensures DayOf(emails[i].t) <= DayOf(lastContact.value)
      {
        assert From(emails[i], c.id, emails[i].dir);
        DayOfMonotone(emails[i].t, lastContact.value);
      }
    } else {
      forall i | 0 <= i < |emails| ensures emails[i].companyId != c.id {
        assert !From(emails[i], c.id, emails[i].dir);
      }
    }
  }

  /** The reply column is non-zero exactly when the company's follow-up is
      closed by a reply, and is 0 for a company that never sent; the
      compliance flag is raised at ten sent emails. */
  lemma CardReplies(holidays: set<int>, emails: seq<Email>, c: Company, now: int, threshold: int)
    ensures CardFor(holidays, emails, c, now).repliesSince > 0
        <==> Classify(holidays, emails, c.id, now, threshold) == Replied
    ensures Latest(emails, c.id, Outgoing).None? ==> CardFor(holidays, emails, c, now).repliesSince == 0
    ensures CardFor(holidays, emails, c, now).nonCompliant <==> CardFor(holidays, emails, c, now).sent >= 10
    ensures CardFor(holidays, emails, c, now).sent == |set i | 0 <= i < |emails| && From(emails[i], c.id, Outgoing)|
  {
    CountIsPositionsSize(emails, SentBy(c.id, Outgoing));
    assert Positions(emails, SentBy(c.id, Outgoing)) == set i | 0 <= i < |emails| && From(emails[i], c.id, Outgoing);
  }

  // ---------------------------------------------------------------------
  // Company search (show_overview_tab, lines 225-239)

  function OrEmpty(s: Option<string>): string
  {
    if s.Some? then s.value else ""
  }

  /** `_m` over the four searchable fields; a missing field reads as ''. */
  predicate MatchesQuery(c: Company, lowered: string)
  {
    IsSubstring(lowered, Lower(OrEmpty(c.uifRef)))
    || IsSubstring(lowered, Lower(OrEmpty(c.tradeName)))
    || IsSubstring(lowered, Lower(OrEmpty(c.email)))
    || IsSubstring(lowered, Lower(OrEmpty(c.altEmail)))
  }

  function Matching(lowered: string): Company -> bool
  {
    (c: Company) => MatchesQuery(c, lowered)
  }

  /** The companies a search shows: all of them, in order, for a blank query;
      otherwise those with a field containing the query, ignoring case. */
  function Search(companies: seq<Company>, query: string): (r: seq<Company>)
    ensures SubsequenceOf(r, companies)
    ensures Trim(query) == [] ==> r == companies
    ensures Trim(query) != [] ==> forall c :: c in r <==> c in companies && MatchesQuery(c, Lower(Trim(query)))
  {
    var q := Trim(query);
    if q == [] then
      SubsequenceOfSelf(companies);
      companies
    else
      FilterIsSubsequence(companies, Matching(Lower(q)));
      Filter(companies, Matching(Lower(q)))
  }

  lemma {:induction false} SubsequenceOfSelf<T>(s: seq<T>)
    ensures SubsequenceOf(s, s)
  {
    if s != [] {
      SubsequenceOfSelf(s[1..]);
    }
  }

  /** Upper- or lower-casing the query does not change what the search shows. */
  lemma SearchIgnoresQueryCase(companies: seq<Company>, q1: string, q2: string)
    requires Lower(q1) == Lower(q2)
    ensures Search(companies, q1) == Search(companies, q2)
  {
    TrimLower(q1);
    TrimLower(q2);
    assert Lower(Trim(q1)) == Lower(Trim(q2));
    if Trim(q1) == [] || Trim(q2) == [] {
      assert |Lower(Trim(q1))| == |Trim(q1)| && |Lower(Trim(q2))| == |Trim(q2)|;
    }
  }

  // ---------------------------------------------------------------------
  // Overdue report (show_overdue_tab, lines 809-856)

  /** A company is listed when its latest outgoing date parses, no incoming
      email is dated after it, and strictly more working days than the
      threshold have passed. `parses` says which stored dates pandas can
      read; the stored order of dates is taken to be their time order. */
  predicate Reportable(holidays: set<int>, emails: seq<Email>, parses: int -> bool,
                       now: int, threshold: int, c: Company)
  {
    var last := Latest(emails, c.id, Outgoing);
    last.Some? && parses(last.value) && RepliesAfter(emails, c.id, last.value) == 0
    && CountWorkingDays(holidays, last.value, now) > threshold
  }

  function IsReportable(holidays: set<int>, emails: seq<Email>, parses: int -> bool,
                        now: int, threshold: int): Company -> bool
  {
    (c: Company) => Reportable(holidays, emails, parses, now, threshold, c)
  }

  function ReportRowFor(holidays: set<int>, emails: seq<Email>, now: int): Company -> ReportRow
  {
    (c: Company) => var last := Latest(emails, c.id, Outgoing);
         var t := if last.Some? then last.value else now;
         ReportRow(c.uifRef, c.tradeName, c.email, DayOf(t), CountWorkingDays(holidays, t, now))
  }

  /** The overdue report loop. */
  method OverdueReport(calculator: WorkingDayCalculator, companies: seq<Company>, emails: seq<Email>,
                       parses: int -> bool, now: int, threshold: int) returns (rows: seq<ReportRow>)
    ensures rows == Map(Filter(companies, IsReportable(calculator.holidays, emails, parses, now, threshold)),
                        ReportRowFor(calculator.holidays, emails, now))
  {
    var p := IsReportable(calculator.holidays, emails, parses, now, threshold);
    var f := ReportRowFor(calculator.holidays, emails, now);
    rows := [];
    for i := 0 to |companies|
      invariant rows == Map(Filter(companies[..i], p), f)
    {
      var listed, row := ReportEntry(calculator, emails, parses, now, threshold, companies[i]);
      FilterMapStep(companies, i, p, f);
      if listed {
        rows := rows + [row];
      }
    }
    assert companies[..|companies|] == companies;
  }

  /** The body of the report loop for one company: whether it is listed, and
      its row. */
  method ReportEntry(calculator: WorkingDayCalculator, emails: seq<Email>, parses: int -> bool,
                     now: int, threshold: int, company: Company) returns (listed: bool, row: ReportRow)
    ensures listed == IsReportable(calculator.holidays, emails, parses, now, threshold)(company)
    ensures listed ==> row == ReportRowFor(calculator.holidays, emails, now)(company)
  {
    listed, row := false, ReportRow(company.uifRef, company.tradeName, company.email, DayOf(now), 0);
    var lastSent := Latest(emails, company.id, Outgoing);
    if lastSent.None? {
      return;
    }
    if !parses(lastSent.value) {
      return;
    }
    var lastReply := RepliesAfter(emails, company.id, lastSent.value) > 0;
    if !lastReply {
      var daysSince := calculator.WorkingDaysBetween(lastSent.value, now);
      if daysSince > threshold {
        listed, row := true, ReportRow(company.uifRef, company.tradeName, company.email,
                                       DayOf(lastSent.value), daysSince);
      }
    }
  }

  /** The report lists exactly the overdue companies of the overview (whose
      latest outgoing date parses); due-tomorrow companies are not listed. */
  lemma ReportableIsOverdue(holidays: set<int>, emails: seq<Email>, parses: int -> bool,
                            now: int, threshold: int, c: Company)
    ensures Reportable(holidays, emails, parses, now, threshold, c)
        <==> Classify(holidays, emails, c.id, now, threshold) == Overdue
             && parses(Latest(emails, c.id, Outgoing).value)
  {
  }

  /** When every stored date parses, the report has as many rows as the
      overview's overdue counter, and each row's working days exceed the
      threshold. */
  lemma {:induction false} ReportMatchesOverview(holidays: set<int>, companies: seq<Company>, emails: seq<Email>,
                                                 parses: int -> bool, now: int, threshold: int)
    requires forall t :: parses(t)
    ensures |Map(Filter(companies, IsReportable(holidays, emails, parses, now, threshold)), ReportRowFor(holidays, emails, now))|
         == Count(companies, IsOverdue(holidays, emails, now, threshold))
    ensures forall r ::
              r in Map(Filter(companies, IsReportable(holidays, emails, parses, now, threshold)),
                       ReportRowFor(holidays, emails, now))
              ==> r.workingDaysSince > threshold
  {
    ReportCountMatchesOverview(holidays, companies, emails, parses, now, threshold);
    ReportRowsAreOverdue(holidays, companies, emails, parses, now, threshold);
  }

  lemma {:induction false} ReportCountMatchesOverview(holidays: set<int>, companies: seq<Company>, emails: seq<Email>,
                                                      parses: int -> bool, now: int, threshold: int)
    requires forall t :: parses(t)
    ensures Count(companies, IsReportable(holidays, emails, parses, now, threshold))
         == Count(companies, IsOverdue(holidays, emails, now, threshold))
  {
    if companies != [] {
      ReportCountMatchesOverview(holidays, companies[1..], emails, parses, now, threshold);
      ReportableIsOverdue(holidays, emails, parses, now, threshold, companies[0]);
    }
  }

  lemma ReportRowsAreOverdue(holidays: set<int>, companies: seq<Company>, emails: seq<Email>,
                             parses: int -> bool, now: int, threshold: int)
    ensures forall r ::
              r in Map(Filter(companies, IsReportable(holidays, emails, parses, now, threshold)),
                       ReportRowFor(holidays, emails, now))
              ==> r.workingDaysSince > threshold
  {
    var p := IsReportable(holidays, emails, parses, now, threshold);
    var rows := Map(Filter(companies, p), ReportRowFor(holidays, emails, now));
    forall r | r in rows ensures r.workingDaysSince > threshold {
      var k :| 0 <= k < |rows| && rows[k] == r;
      assert Filter(companies, p)[k] in Filter(companies, p);
    }
  }

  // ---------------------------------------------------------------------
  // Mailbox address masking (show_email_sync_tab, lines 634-637)

  /** Position of the first `c` in `s`, if any. */
  function FirstIndex(s: string, c: char): (r: Option<nat>)
    ensures r.None? <==> c !in s
    ensures r.Some? ==> r.value < |s| && s[r.value] == c && c !in s[..r.value]
  {
    if s == [] then None
    else if s[0] == c then Some(0)
    else
      var rest := FirstIndex(s[1..], c);
      if rest.Some? then
        assert s[..rest.value + 1] == [s[0]] + s[1..][..rest.value];
        Some(rest.value + 1)
      else None
  }

  /** `masked_email`: the local part is replaced by its first two characters
      and '***' when it is longer than two characters, by '***' otherwise;
      everything from the first '@' on is kept. */
  function MaskEmail(addr: string): string
  {
    match FirstIndex(addr, '@')
    case None => addr
    case Some(k) =>
      var local, domain := addr[..k], addr[k + 1..];
      (if |local| > 2 then local[..2] else "") + "***@" + domain
  }

  /** Masking keeps an address without '@' as it is; otherwise it keeps the
      domain, shows at most two leading characters of the local part, and
      shows none of a local part of at most two characters. */
  lemma MaskHidesLocalPart(addr: string)
    ensures '@' !in addr ==> MaskEmail(addr) == addr
    ensures '@' in addr ==>
      exists k :: 0 <= k < |addr| && addr[k] == '@' && '@' !in addr[..k]
        && EndsWith(MaskEmail(addr), "***@" + addr[k + 1..])
        && var shown := MaskEmail(addr)[..|MaskEmail(addr)| - |addr[k + 1..]| - 4];
           (k > 2 ==> shown == addr[..2]) && (k <= 2 ==> shown == "")
  {
    var r := FirstIndex(addr, '@');
    if r.Some? {
      var k := r.value;
      var m := MaskEmail(addr);
      var shown := if k > 2 then addr[..2] else "";
      assert m == shown + "***@" + addr[k + 1..];
      assert m[|m| - |addr[k + 1..]| - 4..] == "***@" + addr[k + 1..];
      assert m[..|m| - |addr[k + 1..]| - 4] == shown;
    }
  }
}

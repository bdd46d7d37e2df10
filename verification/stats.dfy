/** The dashboard's read-only aggregation (portfolio/views.py:145-218): counts
    over calendar-day windows of the visit log, message and project counts,
    and the top-5 rankings. `today` is the current calendar day. */
module Stats {
  import opened Base
  import opened Sorting
  import opened Http
  import opened Models
  import opened Middleware

  const WeekDays: int := 7
  const MonthDays: int := 30
  const TopCount: nat := 5
  const ChartDays: nat := 7

  // ------------------------------------------------------------ visit windows

  function OnDay(d: int): Visit -> bool {
    (v: Visit) => DayOf(v.at) == d
  }

  function OnOrAfter(d: int): Visit -> bool {
    (v: Visit) => DayOf(v.at) >= d
  }

  function ToPage(page: string): Visit -> bool {
    (v: Visit) => v.page == page
  }

  /** `filter(timestamp__date=d).count()` */
  function VisitsOn(log: seq<Visit>, d: int): nat {
    Count(log, OnDay(d))
  }

  /** `filter(timestamp__date__gte=d).count()`: no upper bound. */
  function VisitsSince(log: seq<Visit>, d: int): nat {
    Count(log, OnOrAfter(d))
  }

  function VisitsTo(log: seq<Visit>, page: string): nat {
    Count(log, ToPage(page))
  }

  function VisitsToday(log: seq<Visit>, today: int): nat {
    VisitsOn(log, today)
  }

  /** `week_ago = today - timedelta(days=7)`: eight calendar days and anything
      stamped after today. */
  function VisitsWeek(log: seq<Visit>, today: int): nat {
    VisitsSince(log, today - WeekDays)
  }

  function VisitsMonth(log: seq<Visit>, today: int): nat {
    VisitsSince(log, today - MonthDays)
  }

  /** A window starting earlier holds every visit of a later one. */
  lemma SinceMono(log: seq<Visit>, d: int, e: int)
    requires d <= e
    ensures VisitsSince(log, e) <= VisitsSince(log, d)
  {
    CountMono(log, OnOrAfter(e), OnOrAfter(d));
  }

  /** The three dashboard windows nest. */
  lemma WindowsNest(log: seq<Visit>, today: int)
    ensures VisitsToday(log, today) <= VisitsWeek(log, today)
    ensures VisitsWeek(log, today) <= VisitsMonth(log, today)
    ensures VisitsMonth(log, today) <= |log|
  {
    CountMono(log, OnDay(today), OnOrAfter(today - WeekDays));
    SinceMono(log, today - MonthDays, today - WeekDays);
  }

  /** Visits from day `d` on are those of day `d` plus those from `d + 1` on. */
  lemma SinceSplit(log: seq<Visit>, d: int)
    ensures VisitsSince(log, d) == VisitsOn(log, d) + VisitsSince(log, d + 1)
  {
    CountSplit(log, OnOrAfter(d), OnDay(d), OnOrAfter(d + 1));
  }

  // -------------------------------------------------------------- chart data

  /** Counts of consecutive days from day `from` on, plus everything after
      the last of them, make up the window that starts at `from`. */
  lemma {:induction false} DailyCountsSum(log: seq<Visit>, from: int, data: seq<nat>)
    requires forall j :: 0 <= j < |data| ==> data[j] == VisitsOn(log, from + j)
    ensures Sum(data) + VisitsSince(log, from + |data|) == VisitsSince(log, from)
    decreases |data|
  {
    if |data| > 0 {
      var rest := data[1..];
      forall j | 0 <= j < |rest|
        ensures rest[j] == VisitsOn(log, (from + 1) + j)
      {
        assert rest[j] == data[j + 1];
      }
      DailyCountsSum(log, from + 1, rest);
      SinceSplit(log, from);
    }
  }

  /** The loop of `api_chart_data` over `range(n)`: entry `k` of both lists
      belongs to day `today - k`, newest first. */
  method CollectDays(log: seq<Visit>, today: int, format: int -> string, n: nat)
    returns (dates: seq<string>, visits: seq<nat>)
    ensures |dates| == n && |visits| == n
    ensures forall k :: 0 <= k < n ==> dates[k] == format(today - k)
    ensures forall k :: 0 <= k < n ==> visits[k] == VisitsOn(log, today - k)
  {
    dates, visits := [], [];
    var i := 0;
    while i < n
      invariant 0 <= i <= n
      invariant |dates| == i && |visits| == i
      invariant forall k :: 0 <= k < i ==> dates[k] == format(today - k)
      invariant forall k :: 0 <= k < i ==> visits[k] == VisitsOn(log, today - k)
    {
      var date := today - i;
      dates := dates + [format(date)];
      visits := visits + [VisitsOn(log, date)];
      i := i + 1;
    }
  }

  /** Reversing the newest-first lists puts day `today - (n - 1 - j)` at
      position `j`. */
  lemma ReversedDays<T>(xs: seq<T>, f: int -> T, today: int)
    requires forall k :: 0 <= k < |xs| ==> xs[k] == f(today - k)
    ensures forall j :: 0 <= j < |xs| ==> Reverse(xs)[j] == f(today - (|xs| - 1 - j))
  {
    forall j | 0 <= j < |xs|
      ensures Reverse(xs)[j] == f(today - (|xs| - 1 - j))
    {
      assert Reverse(xs)[j] == xs[|xs| - 1 - j];
    }
  }

  /** `api_chart_data`: for i in 0..6 the label and count of day `today - i`,
      then both lists reversed so that the oldest day comes first. `format`
      stands for `strftime('%d/%m')`. The chart's seven days fall inside the
      week window, which also counts day `today - 7` and any later day; when no
      visit is stamped after today (the clock only moves forward) the chart
      accounts for the whole week window except its eighth, oldest day. */
  method ChartData(log: seq<Visit>, today: int, format: int -> string)
    returns (labels: seq<string>, data: seq<nat>)
    ensures |labels| == ChartDays && |data| == ChartDays
    ensures forall j :: 0 <= j < ChartDays ==> labels[j] == format(today - (6 - j))
    ensures forall j :: 0 <= j < ChartDays ==> data[j] == VisitsOn(log, today - (6 - j))
    ensures Sum(data) + VisitsOn(log, today - WeekDays) + VisitsSince(log, today + 1)
            == VisitsWeek(log, today)
    ensures (forall i :: 0 <= i < |log| ==> DayOf(log[i].at) <= today)
            ==> Sum(data) + VisitsOn(log, today - WeekDays) == VisitsWeek(log, today)
  {
    var dates, visits := CollectDays(log, today, format, ChartDays);
    ReversedDays(dates, format, today);
    ReversedDays(visits, (d: int) => VisitsOn(log, d), today);
    labels := Reverse(dates);
    data := Reverse(visits);
    ChartSum(log, today, data);
    NoLaterVisits(log, today);
  }

  /** Daily counts of the `|data|` days ending today, plus the day before
      them, plus anything stamped after today, make up the window that starts
      `|data|` days before today; for seven days that is `visits_week`. */
  lemma ChartSum(log: seq<Visit>, today: int, data: seq<nat>)
    requires forall j :: 0 <= j < |data| ==> data[j] == VisitsOn(log, today - (|data| - 1 - j))
    ensures Sum(data) + VisitsOn(log, today - |data|) + VisitsSince(log, today + 1)
            == VisitsSince(log, today - |data|)
  {
    var from := today - (|data| - 1);
    forall j | 0 <= j < |data|
      ensures data[j] == VisitsOn(log, from + j)
    {
      assert from + j == today - (|data| - 1 - j);
    }
    DailyCountsSum(log, from, data);
    assert from + |data| == today + 1;
    SinceSplit(log, today - |data|);
    assert (today - |data|) + 1 == from;
  }

  /** With no visit stamped after today, the open-ended window after today
      is empty. */
  lemma NoLaterVisits(log: seq<Visit>, today: int)
    ensures (forall i :: 0 <= i < |log| ==> DayOf(log[i].at) <= today) ==> VisitsSince(log, today + 1) == 0
  {
    if forall i :: 0 <= i < |log| ==> DayOf(log[i].at) <= today {
      CountZero(log, OnOrAfter(today + 1));
    }
  }

  // ---------------------------------------------------------------- rankings

  predicate MoreViewed(a: Project, b: Project) {
    a.views >= b.views
  }

  /** `Project.objects.order_by('-views')[:5]` */
  function TopProjects(ps: seq<Project>): (r: seq<Project>)
    ensures |r| == if |ps| < TopCount then |ps| else TopCount
    ensures multiset(r) <= multiset(ps)
    ensures forall i, j :: 0 <= i < j < |r| ==> r[i].views >= r[j].views
    ensures |r| > 0 ==> forall p :: p in multiset(ps) - multiset(r) ==> p.views <= r[|r| - 1].views
  {
    TopNRanks(ps, MoreViewed, TopCount);
    TopN(ps, MoreViewed, TopCount)
  }

  /** `Contact.objects.order_by('-created_at')[:5]` */
  function RecentMessages(cs: seq<Contact>): (r: seq<Contact>)
    ensures |r| == if |cs| < TopCount then |cs| else TopCount
    ensures multiset(r) <= multiset(cs)
    ensures forall i, j :: 0 <= i < j < |r| ==> r[i].createdAt >= r[j].createdAt
    ensures |r| > 0 ==> forall c :: c in multiset(cs) - multiset(r) ==> c.createdAt <= r[|r| - 1].createdAt
  {
    DefaultOrderingsArePreorders();
    TopNRanks(cs, ContactNewerFirst, TopCount);
    TopN(cs, ContactNewerFirst, TopCount)
  }

  /** One row of `values('page').annotate(count=Count('page'))`. */
  datatype PageCount = PageCount(page: string, count: nat)

  predicate MoreVisited(a: PageCount, b: PageCount) {
    a.count >= b.count
  }

  function PagesOf(log: seq<Visit>): (pages: seq<string>)
    ensures |pages| == |log|
    ensures forall i :: 0 <= i < |log| ==> pages[i] == log[i].page
  {
    seq(|log|, i requires 0 <= i < |log| => log[i].page)
  }

  /** A page that appears in the log has been visited at least once. */
  lemma LoggedPageVisited(log: seq<Visit>, i: int)
    requires 0 <= i < |log|
    ensures VisitsTo(log, log[i].page) >= 1
  {
    assert ToPage(log[i].page)(log[i]);
    CountZero(log, ToPage(log[i].page));
  }

  /** One row per distinct page, in first-visit order, with its number of
      visits. */
  function PageCounts(log: seq<Visit>): (rows: seq<PageCount>)
    ensures NoDuplicates(rows)
    ensures forall k :: 0 <= k < |rows| ==> rows[k].count == VisitsTo(log, rows[k].page)
    ensures forall k :: 0 <= k < |rows| ==> rows[k].page in PagesOf(log)
  {
    var pages := Distinct(PagesOf(log));
    seq(|pages|, k requires 0 <= k < |pages| => PageCount(pages[k], VisitsTo(log, pages[k])))
  }

  /** Every logged page has its row. */
  lemma PageCountsCoverLog(log: seq<Visit>, i: int)
    requires 0 <= i < |log|
    ensures PageCount(log[i].page, VisitsTo(log, log[i].page)) in PageCounts(log)
  {
    var pages := Distinct(PagesOf(log));
    var rows := PageCounts(log);
    assert PagesOf(log)[i] == log[i].page;
    assert log[i].page in pages;
    var k :| 0 <= k < |pages| && pages[k] == log[i].page;
    assert rows[k] == PageCount(log[i].page, VisitsTo(log, log[i].page));
  }

  /** `popular_pages`: the five most visited distinct pages with their counts. */
  function PopularPages(log: seq<Visit>): (r: seq<PageCount>)
    ensures |r| == if |PageCounts(log)| < TopCount then |PageCounts(log)| else TopCount
  {
    TopN(PageCounts(log), MoreVisited, TopCount)
  }

  /** The dashboard's popular pages are distinct, most visited first, and
      each carries its page's true number of visits. */
  lemma PopularPagesTrueCounts(log: seq<Visit>)
    ensures var r := PopularPages(log);
      && (forall i, j :: 0 <= i < j < |r| ==> r[i].page != r[j].page)
      && (forall k :: 0 <= k < |r| ==> r[k].count == VisitsTo(log, r[k].page) && r[k].count >= 1)
      && (forall i, j :: 0 <= i < j < |r| ==> r[i].count >= r[j].count)
  {
    var rows := PageCounts(log);
    var r := PopularPages(log);
    TopNRanks(rows, MoreVisited, TopCount);
    PopularPagesRows(log, rows, r);
    assert forall i, j :: 0 <= i < j < |r| ==> MoreVisited(r[i], r[j]);
  }

  /** No page left out of the dashboard's popular pages was visited more
      often than the last one shown, and a non-empty log shows at least one
      page. */
  lemma PopularPagesComplete(log: seq<Visit>)
    ensures var r := PopularPages(log);
      && (|log| > 0 ==> |r| > 0)
      && (|r| > 0 ==> forall i :: 0 <= i < |log| && log[i].page !in PagesOfRows(r)
                                  ==> VisitsTo(log, log[i].page) <= r[|r| - 1].count)
  {
    var rows := PageCounts(log);
    TopNRanks(rows, MoreVisited, TopCount);
    RankedPages(log, rows, TopCount, PopularPages(log));
  }

  /** Any ranking of the page table by count, cut at a positive `n`, has
      distinct pages with true counts, and leaves out no page visited more
      often than the last one kept. */
  lemma RankedPages(log: seq<Visit>, rows: seq<PageCount>, n: nat, r: seq<PageCount>)
    requires rows == PageCounts(log) && n > 0
    requires |r| == if n < |rows| then n else |rows|
    requires multiset(r) <= multiset(rows)
    requires SortedBy(r, MoreVisited)
    requires |r| > 0 ==> forall x :: x in multiset(rows) - multiset(r) ==> MoreVisited(r[|r| - 1], x)
    ensures |log| > 0 ==> |r| > 0
    ensures forall i, j :: 0 <= i < j < |r| ==> r[i].page != r[j].page
    ensures forall k :: 0 <= k < |r| ==> r[k].count == VisitsTo(log, r[k].page) && r[k].count >= 1
    ensures forall i, j :: 0 <= i < j < |r| ==> r[i].count >= r[j].count
    ensures |r| > 0 ==> forall i :: 0 <= i < |log| && log[i].page !in PagesOfRows(r)
                                    ==> VisitsTo(log, log[i].page) <= r[|r| - 1].count
  {
    assert forall i, j :: 0 <= i < j < |r| ==> MoreVisited(r[i], r[j]);
    PopularPagesRows(log, rows, r);
    PopularPagesExcluded(log, rows, r);
  }

  function PagesOfRows(r: seq<PageCount>): (pages: seq<string>)
    ensures |pages| == |r|
    ensures forall k :: 0 <= k < |r| ==> pages[k] == r[k].page
  {
    seq(|r|, k requires 0 <= k < |r| => r[k].page)
  }

  /** The ranked rows are rows of the table: distinct pages, true counts. */
  lemma PopularPagesRows(log: seq<Visit>, rows: seq<PageCount>, r: seq<PageCount>)
    requires rows == PageCounts(log)
    requires multiset(r) <= multiset(rows)
    ensures forall i, j :: 0 <= i < j < |r| ==> r[i].page != r[j].page
    ensures forall k :: 0 <= k < |r| ==> r[k].count == VisitsTo(log, r[k].page) && r[k].count >= 1
  {
    forall k | 0 <= k < |r|
      ensures r[k].count == VisitsTo(log, r[k].page) && r[k].count >= 1
    {
      assert r[k] in multiset(r);
      assert r[k] in rows;
      var i :| 0 <= i < |log| && PagesOf(log)[i] == r[k].page;
      LoggedPageVisited(log, i);
    }
    SubMultisetNoDuplicates(rows, r);
  }

  /** No page left out of the ranking was visited more often than the last
      page kept, and a non-empty log ranks at least one page. */
  lemma PopularPagesExcluded(log: seq<Visit>, rows: seq<PageCount>, r: seq<PageCount>)
    requires rows == PageCounts(log)
    requires |rows| > 0 ==> |r| > 0
    requires |r| > 0 ==> forall x :: x in multiset(rows) - multiset(r) ==> MoreVisited(r[|r| - 1], x)
    ensures |log| > 0 ==> |r| > 0
    ensures |r| > 0 ==> forall i :: 0 <= i < |log| && log[i].page !in PagesOfRows(r)
                                    ==> VisitsTo(log, log[i].page) <= r[|r| - 1].count
  {
    if |log| > 0 {
      PageCountsCoverLog(log, 0);
    }
    if |r| > 0 {
      forall i | 0 <= i < |log| && log[i].page !in PagesOfRows(r)
        ensures VisitsTo(log, log[i].page) <= r[|r| - 1].count
      {
        var x := PageCount(log[i].page, VisitsTo(log, log[i].page));
        PageCountsCoverLog(log, i);
        assert x in multiset(rows) - multiset(r);
      }
    }
  }

  // --------------------------------------------------------------- snapshots

  predicate IsUnread(c: Contact) {
    !c.read
  }

  /** `Contact.objects.filter(read=False).count()` */
  function Unread(cs: seq<Contact>): nat {
    Count(cs, IsUnread)
  }

  datatype Dashboard = Dashboard(
    totalProjects: nat,
    totalMessages: nat,
    unreadMessages: nat,
    visitsToday: nat,
    visitsWeek: nat,
    visitsMonth: nat,
    topProjects: seq<Project>,
    recentMessages: seq<Contact>,
    popularPages: seq<PageCount>)

  /** `dashboard`: the operator's snapshot of the store on day `today`. */
  function DashboardFor(db: Db, today: int): (d: Dashboard)
    ensures d.totalProjects == |db.projects| && d.totalMessages == |db.contacts|
    ensures d.unreadMessages == Count(db.contacts, IsUnread) <= d.totalMessages
    ensures d.visitsToday == VisitsOn(db.visits, today)
    ensures d.visitsWeek == VisitsSince(db.visits, today - WeekDays)
    ensures d.visitsMonth == VisitsSince(db.visits, today - MonthDays)
    ensures d.visitsToday <= d.visitsWeek <= d.visitsMonth <= |db.visits|
    ensures |d.topProjects| == if |db.projects| < TopCount then |db.projects| else TopCount
    ensures multiset(d.topProjects) <= multiset(db.projects)
    ensures |d.recentMessages| == if |db.contacts| < TopCount then |db.contacts| else TopCount
    ensures multiset(d.recentMessages) <= multiset(db.contacts)
    ensures |d.popularPages| == if |PageCounts(db.visits)| < TopCount then |PageCounts(db.visits)| else TopCount
  {
    WindowsNest(db.visits, today);
    Dashboard(
      |db.projects|,
      |db.contacts|,
      Unread(db.contacts),
      VisitsToday(db.visits, today),
      VisitsWeek(db.visits, today),
      VisitsMonth(db.visits, today),
      TopProjects(db.projects),
      RecentMessages(db.contacts),
      PopularPages(db.visits))
  }

  /** The dashboard's two rankings: most viewed projects and newest messages
      first, and nothing left out ranks above the last one shown. */
  lemma DashboardRankings(db: Db, today: int)
    ensures var d := DashboardFor(db, today);
      && (forall i, j :: 0 <= i < j < |d.topProjects| ==> d.topProjects[i].views >= d.topProjects[j].views)
      && (|d.topProjects| > 0 ==> forall p :: p in multiset(db.projects) - multiset(d.topProjects)
                                             ==> p.views <= d.topProjects[|d.topProjects| - 1].views)
      && (forall i, j :: 0 <= i < j < |d.recentMessages| ==> d.recentMessages[i].createdAt >= d.recentMessages[j].createdAt)
      && (|d.recentMessages| > 0 ==> forall c :: c in multiset(db.contacts) - multiset(d.recentMessages)
                                                ==> c.createdAt <= d.recentMessages[|d.recentMessages| - 1].createdAt)
  {
  }

  datatype ApiStats = ApiStats(visitsToday: nat, visitsWeek: nat, unreadMessages: nat, totalProjects: nat)

  /** `api_stats`: the live counters, bounded by the tables they count. */
  function ApiStatsFor(db: Db, today: int): (s: ApiStats)
    ensures s.visitsToday == VisitsOn(db.visits, today)
    ensures s.visitsWeek == VisitsSince(db.visits, today - WeekDays)
    ensures s.visitsToday <= s.visitsWeek <= |db.visits|
    ensures s.unreadMessages == Count(db.contacts, IsUnread) <= |db.contacts|
    ensures s.totalProjects == |db.projects|
  {
    WindowsNest(db.visits, today);
    ApiStats(VisitsToday(db.visits, today), VisitsWeek(db.visits, today),
             Unread(db.contacts), |db.projects|)
  }

  /** The API's four figures agree with the dashboard's for the same store
      and day. */
  lemma ApiAgreesWithDashboard(db: Db, today: int)
    ensures var s, d := ApiStatsFor(db, today), DashboardFor(db, today);
      s.visitsToday == d.visitsToday && s.visitsWeek == d.visitsWeek
      && s.unreadMessages == d.unreadMessages && s.totalProjects == d.totalProjects
  {
  }

  // ----------------------------------------------- tracking meets aggregation

  /** A tracked request adds exactly one visit to the day it is stamped on and
      to its page, and none to any other day. */
  lemma TrackedVisitIsCounted<R>(getResponse: Handler<R>, req: Request, log: seq<Visit>,
                                 now: Instant, d: int)
    requires !IsAdminPath(req.path) && RecordFor(req, now).Some?
    ensures var after := getResponse(req, log).1;
      var logged := Call(getResponse, req, log, now, true).1;
      && VisitsOn(logged, d) == VisitsOn(after, d) + (if d == DayOf(now) then 1 else 0)
      && VisitsTo(logged, req.path) == VisitsTo(after, req.path) + 1
  {
    var after := getResponse(req, log).1;
    var v := RecordFor(req, now).value;
    CountAppend(after, [v], OnDay(d));
    CountAppend(after, [v], ToPage(req.path));
  }
}

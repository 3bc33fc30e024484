/** The activity calendar of one user: the monthly listing, and the date-jump search that must agree with it
    (archive/activity_calendar_queries.py). */
module ActivityCalendar {
  import opened Options
  import opened PythonText

  const SCHEDULE_KIND := "schedule"
  const VISIT_KIND := "visit"
  const GOODS_ACQUIRED_KIND := "goods_acquired"
  const INTEREST_ADDED := "interest_added"

  // ---------------------------------------------------------------- dates

  datatype Date = Date(year: int, month: int, day: int)

  predicate LeapYear(year: int) {
    year % 4 == 0 && (year % 100 != 0 || year % 400 == 0)
  }

  function MonthLength(year: int, month: int): int {
    if month == 2 then if LeapYear(year) then 29 else 28
    else if month in {4, 6, 9, 11} then 30
    else 31
  }

  predicate ValidDate(d: Date) {
    1 <= d.year <= 9999 && 1 <= d.month <= 12 && 1 <= d.day <= MonthLength(d.year, d.month)
  }

  predicate AtMost(a: Date, b: Date) {
    a.year < b.year || (a.year == b.year && (a.month < b.month || (a.month == b.month && a.day <= b.day)))
  }

  function MonthStart(year: int, month: int): Date {
    Date(year, month, 1)
  }

  function MonthEnd(year: int, month: int): Date {
    Date(year, month, MonthLength(year, month))
  }

  predicate InMonth(d: Date, year: int, month: int) {
    AtMost(MonthStart(year, month), d) && AtMost(d, MonthEnd(year, month))
  }

  /** Every date is in exactly one month. */
  lemma OneMonthEach(d: Date, year: int, month: int)
    requires ValidDate(d) && 1 <= month <= 12
    ensures InMonth(d, year, month) <==> year == d.year && month == d.month
  {
  }

  // ---------------------------------------------------------------- rows of one user

  datatype Event = Event(id: nat, title: string, startDate: Option<Date>, endDate: Option<Date>)

  /** `event` is empty for a status on a private entry. */
  datatype StatusRow = StatusRow(planned: bool, event: Option<Event>)

  /** Exactly one of the two subjects is set. */
  datatype VisitRow = VisitRow(visitedOn: Date, eventTitle: Option<string>, entryTitle: Option<string>)

  datatype GoodsRow = GoodsRow(name: string, acquiredOn: Option<Date>, createdOn: Date)

  datatype LogRow = LogRow(kind: string, occurredOn: Date, subjectLabel: string, event: Option<nat>)

  datatype InterestRow = InterestRow(createdOn: Date, event: Option<Event>)

  datatype Archive = Archive(
    statuses: seq<StatusRow>,
    visits: seq<VisitRow>,
    goods: seq<GoodsRow>,
    logs: seq<LogRow>,
    interests: seq<InterestRow>)

  /** `on` is the date of a single-day item, `until` the end of a span that starts at `on`. */
  datatype Item = Item(kind: string, on: Date, until: Option<Date>, caption: string)

  predicate ValidEvent(e: Event) {
    && (e.startDate.Some? ==> ValidDate(e.startDate.value))
    && (e.endDate.Some? ==> ValidDate(e.endDate.value))
    && (e.startDate.Some? && e.endDate.Some? ==> AtMost(e.startDate.value, e.endDate.value))
  }

  predicate OneSubjectEach(visits: seq<VisitRow>) {
    forall r | r in visits :: r.eventTitle.Some? <==> r.entryTitle.None?
  }

  /** What the tables guarantee: real dates, one subject a visit, and events that do not end before they start. */
  predicate ValidArchive(a: Archive) {
    && (forall r | r in a.statuses :: r.event.Some? ==> ValidEvent(r.event.value))
    && OneSubjectEach(a.visits) && (forall r | r in a.visits :: ValidDate(r.visitedOn))
    && (forall r | r in a.goods :: ValidDate(r.createdOn) && (r.acquiredOn.Some? ==> ValidDate(r.acquiredOn.value)))
    && (forall r | r in a.logs :: ValidDate(r.occurredOn))
    && (forall r | r in a.interests :: ValidDate(r.createdOn))
  }

  // ---------------------------------------------------------------- the item of a row

  function GoodsDate(r: GoodsRow): Date {
    if r.acquiredOn.Some? then r.acquiredOn.value else r.createdOn
  }

  function VisitLabel(r: VisitRow): string
    requires r.eventTitle.Some? || r.entryTitle.Some?
  {
    if r.eventTitle.Some? then r.eventTitle.value else r.entryTitle.value
  }

  function LoggedEvents(a: Archive): set<nat> {
    set r | r in a.logs && r.kind == INTEREST_ADDED && r.event.Some? :: r.event.value
  }

  predicate IsScheduled(r: StatusRow) {
    r.planned && r.event.Some? && r.event.value.startDate.Some?
  }

  predicate IsOldInterest(a: Archive, r: InterestRow) {
    r.event.Some? && r.event.value.id !in LoggedEvents(a)
  }

  function ScheduleItem(r: StatusRow): Item
    requires IsScheduled(r)
  {
    var e := r.event.value;
    Item(SCHEDULE_KIND, e.startDate.value, Some(if e.endDate.Some? then e.endDate.value else e.startDate.value), e.title)
  }

  // ---------------------------------------------------------------- the monthly listing, source by source

  function ScheduleItems(rows: seq<StatusRow>, year: int, month: int): seq<Item> {
    if rows == [] then []
    else
      var r := rows[|rows| - 1];
      ScheduleItems(rows[..|rows| - 1], year, month) +
      if && IsScheduled(r) && AtMost(r.event.value.startDate.value, MonthEnd(year, month))
         && (if r.event.value.endDate.None? then AtMost(MonthStart(year, month), r.event.value.startDate.value)
             else AtMost(MonthStart(year, month), r.event.value.endDate.value))
      then [ScheduleItem(r)] else []
  }

  function VisitItems(rows: seq<VisitRow>, year: int, month: int): seq<Item>
    requires forall r | r in rows :: r.eventTitle.Some? || r.entryTitle.Some?
  {
    if rows == [] then []
    else
      var r := rows[|rows| - 1];
      VisitItems(rows[..|rows| - 1], year, month) +
      if InMonth(r.visitedOn, year, month) then [Item(VISIT_KIND, r.visitedOn, None, VisitLabel(r))] else []
  }

  function GoodsItems(rows: seq<GoodsRow>, year: int, month: int): seq<Item> {
    if rows == [] then []
    else
      var r := rows[|rows| - 1];
      GoodsItems(rows[..|rows| - 1], year, month) +
      if InMonth(GoodsDate(r), year, month) then [Item(GOODS_ACQUIRED_KIND, GoodsDate(r), None, r.name)] else []
  }

  function LogItems(rows: seq<LogRow>, year: int, month: int): seq<Item> {
    if rows == [] then []
    else
      var r := rows[|rows| - 1];
      LogItems(rows[..|rows| - 1], year, month) +
      if InMonth(r.occurredOn, year, month) then [Item(r.kind, r.occurredOn, None, r.subjectLabel)] else []
  }

  function OldInterestItems(a: Archive, rows: seq<InterestRow>, year: int, month: int): seq<Item> {
    if rows == [] then []
    else
      var r := rows[|rows| - 1];
      OldInterestItems(a, rows[..|rows| - 1], year, month) +
      if IsOldInterest(a, r) && InMonth(r.createdOn, year, month)
      then [Item(INTEREST_ADDED, r.createdOn, None, r.event.value.title)] else []
  }

  predicate Allowed(kind: string, kinds: Option<set<string>>) {
    kinds.None? || kind in kinds.value
  }

  function OfKinds(items: seq<Item>, kinds: Option<set<string>>): seq<Item> {
    if items == [] then []
    else OfKinds(items[..|items| - 1], kinds) + if Allowed(items[|items| - 1].kind, kinds) then [items[|items| - 1]] else []
  }

  function ListForMonth(a: Archive, year: int, month: int, kinds: Option<set<string>>): seq<Item>
    requires ValidArchive(a)
  {
    OfKinds(ScheduleItems(a.statuses, year, month) + VisitItems(a.visits, year, month) + GoodsItems(a.goods, year, month)
            + LogItems(a.logs, year, month) + OldInterestItems(a, a.interests, year, month), kinds)
  }

  method GoodsAcquiredItems(rows: seq<GoodsRow>, year: int, month: int) returns (items: seq<Item>)
    ensures items == GoodsItems(rows, year, month)
  {
    items := [];
    for i := 0 to |rows|
      invariant items == GoodsItems(rows[..i], year, month)
    {
      assert rows[..i + 1][..i] == rows[..i];
      var displayDate := if rows[i].acquiredOn.Some? then rows[i].acquiredOn.value else rows[i].createdOn;
      if AtMost(MonthStart(year, month), displayDate) && AtMost(displayDate, MonthEnd(year, month)) {
        items := items + [Item(GOODS_ACQUIRED_KIND, displayDate, None, rows[i].name)];
      }
    }
    assert rows[..|rows|] == rows;
  }

  method LogEntryItems(rows: seq<LogRow>, year: int, month: int) returns (items: seq<Item>)
    ensures items == LogItems(rows, year, month)
  {
    var first, last := MonthStart(year, month), MonthEnd(year, month);
    items := [];
    for i := 0 to |rows|
      invariant items == LogItems(rows[..i], year, month)
    {
      assert rows[..i + 1][..i] == rows[..i];
      if AtMost(first, rows[i].occurredOn) && AtMost(rows[i].occurredOn, last) {
        items := items + [Item(rows[i].kind, rows[i].occurredOn, None, rows[i].subjectLabel)];
      }
    }
    assert rows[..|rows|] == rows;
  }

  method InterestAddedFallbackItems(a: Archive, year: int, month: int) returns (items: seq<Item>)
    ensures items == OldInterestItems(a, a.interests, year, month)
  {
    var logged := LoggedEvents(a);
    var rows := a.interests;
    items := [];
    for i := 0 to |rows|
      invariant items == OldInterestItems(a, rows[..i], year, month)
    {
      assert rows[..i + 1][..i] == rows[..i];
      if rows[i].event.Some? && rows[i].event.value.id !in logged {
        if InMonth(rows[i].createdOn, year, month) {
          items := items + [Item(INTEREST_ADDED, rows[i].createdOn, None, rows[i].event.value.title)];
        }
      }
    }
    assert rows[..|rows|] == rows;
  }

  // ---------------------------------------------------------------- the date-jump search

  /** The latest date, if there is any. */
  function MaxDate(dates: seq<Date>): (r: Option<Date>)
    ensures r.None? <==> dates == []
    ensures r.Some? ==> r.value in dates && forall d | d in dates :: AtMost(d, r.value)
  {
    if dates == [] then None
    else
      var d := dates[|dates| - 1];
      assert dates == dates[..|dates| - 1] + [d];
      match MaxDate(dates[..|dates| - 1])
      case None => Some(d)
      case Some(e) => if AtMost(d, e) then Some(e) else Some(d)
  }

  function MatchingStarts(rows: seq<StatusRow>, q: string, matches: (string, string) -> bool): seq<Date> {
    if rows == [] then []
    else
      var r := rows[|rows| - 1];
      MatchingStarts(rows[..|rows| - 1], q, matches) +
      if r.planned && r.event.Some? && matches(r.event.value.title, q) && r.event.value.startDate.Some?
      then [r.event.value.startDate.value] else []
  }

  function MatchingVisits(rows: seq<VisitRow>, q: string, matches: (string, string) -> bool): seq<Date> {
    if rows == [] then []
    else
      var r := rows[|rows| - 1];
      MatchingVisits(rows[..|rows| - 1], q, matches) +
      if (r.eventTitle.Some? && matches(r.eventTitle.value, q)) || (r.entryTitle.Some? && matches(r.entryTitle.value, q))
      then [r.visitedOn] else []
  }

  function MatchingGoods(rows: seq<GoodsRow>, q: string, matches: (string, string) -> bool): seq<Date> {
    if rows == [] then []
    else
      var r := rows[|rows| - 1];
      MatchingGoods(rows[..|rows| - 1], q, matches) + if matches(r.name, q) then [GoodsDate(r)] else []
  }

  function MatchingLogs(rows: seq<LogRow>, q: string, kinds: Option<set<string>>, matches: (string, string) -> bool): seq<Date> {
    if rows == [] then []
    else
      var r := rows[|rows| - 1];
      MatchingLogs(rows[..|rows| - 1], q, kinds, matches) +
      if matches(r.subjectLabel, q) && Allowed(r.kind, kinds) then [r.occurredOn] else []
  }

  function MatchingInterests(a: Archive, rows: seq<InterestRow>, q: string, matches: (string, string) -> bool): seq<Date> {
    if rows == [] then []
    else
      var r := rows[|rows| - 1];
      MatchingInterests(a, rows[..|rows| - 1], q, matches) +
      if r.event.Some? && matches(r.event.value.title, q) && r.event.value.id !in LoggedEvents(a) then [r.createdOn] else []
  }

  /** The match dates of each source, [] for a source that the kinds leave out. */
  function MatchDates(a: Archive, q: string, kinds: Option<set<string>>, matches: (string, string) -> bool): seq<seq<Date>> {
    [ if Allowed(SCHEDULE_KIND, kinds) then MatchingStarts(a.statuses, q, matches) else [],
      if Allowed(VISIT_KIND, kinds) then MatchingVisits(a.visits, q, matches) else [],
      if Allowed(GOODS_ACQUIRED_KIND, kinds) then MatchingGoods(a.goods, q, matches) else [],
      MatchingLogs(a.logs, q, kinds, matches),
      if Allowed(INTEREST_ADDED, kinds) then MatchingInterests(a, a.interests, q, matches) else []]
  }

  /** The latest date of each source that has one. */
  function LatestOfEach(sources: seq<seq<Date>>): seq<Date> {
    if sources == [] then []
    else
      var latest := MaxDate(sources[0]);
      (if latest.Some? then [latest.value] else []) + LatestOfEach(sources[1..])
  }

  /** `matches(label, q)` is the case-insensitive search of the database. */
  function FindLatestActivityDate(a: Archive, query: string, kinds: Option<set<string>>, matches: (string, string) -> bool): Option<Date> {
    var q := Strip(query);
    if q == "" then None else MaxDate(LatestOfEach(MatchDates(a, q, kinds, matches)))
  }

  // ---------------------------------------------------------------- the two agree

  /** Some month lists an item of an allowed kind whose label matches, on (or starting on) `d`. */
  ghost predicate Listed(a: Archive, q: string, kinds: Option<set<string>>, matches: (string, string) -> bool, d: Date)
    requires ValidArchive(a)
  {
    exists year: int, month: int, item ::
      1 <= month <= 12 && item in ListForMonth(a, year, month, kinds) && matches(item.caption, q) && item.on == d
  }

  lemma {:induction false} InOfKinds(items: seq<Item>, kinds: Option<set<string>>, item: Item)
    ensures item in OfKinds(items, kinds) <==> item in items && Allowed(item.kind, kinds)
  {
    if items != [] {
      InOfKinds(items[..|items| - 1], kinds, item);
      assert items == items[..|items| - 1] + [items[|items| - 1]];
    }
  }

  ghost predicate Schedules(r: StatusRow, year: int, month: int, item: Item) {
    && IsScheduled(r) && AtMost(r.event.value.startDate.value, MonthEnd(year, month))
    && (if r.event.value.endDate.None? then AtMost(MonthStart(year, month), r.event.value.startDate.value)
        else AtMost(MonthStart(year, month), r.event.value.endDate.value))
    && item == ScheduleItem(r)
  }

  lemma {:induction false} InScheduleItems(rows: seq<StatusRow>, year: int, month: int, item: Item)
    ensures item in ScheduleItems(rows, year, month) <==> exists r | r in rows :: Schedules(r, year, month, item)
  {
    if rows != [] {
      var last := rows[|rows| - 1];
      InScheduleItems(rows[..|rows| - 1], year, month, item);
      assert rows == rows[..|rows| - 1] + [last];
      assert item in ScheduleItems(rows, year, month) <==>
             item in ScheduleItems(rows[..|rows| - 1], year, month) || Schedules(last, year, month, item);
    }
  }

  lemma {:induction false} InVisitItems(rows: seq<VisitRow>, year: int, month: int, item: Item)
    requires forall r | r in rows :: r.eventTitle.Some? || r.entryTitle.Some?
    ensures item in VisitItems(rows, year, month) <==>
            exists r | r in rows :: InMonth(r.visitedOn, year, month) && item == Item(VISIT_KIND, r.visitedOn, None, VisitLabel(r))
  {
    if rows != [] {
      InVisitItems(rows[..|rows| - 1], year, month, item);
      assert rows == rows[..|rows| - 1] + [rows[|rows| - 1]];
    }
  }

  lemma {:induction false} InGoodsItems(rows: seq<GoodsRow>, year: int, month: int, item: Item)
    ensures item in GoodsItems(rows, year, month) <==>
            exists r | r in rows :: InMonth(GoodsDate(r), year, month) && item == Item(GOODS_ACQUIRED_KIND, GoodsDate(r), None, r.name)
  {
    if rows != [] {
      InGoodsItems(rows[..|rows| - 1], year, month, item);
      assert rows == rows[..|rows| - 1] + [rows[|rows| - 1]];
    }
  }

  lemma {:induction false} InLogItems(rows: seq<LogRow>, year: int, month: int, item: Item)
    ensures item in LogItems(rows, year, month) <==>
            exists r | r in rows :: InMonth(r.occurredOn, year, month) && item == Item(r.kind, r.occurredOn, None, r.subjectLabel)
  {
    if rows != [] {
      InLogItems(rows[..|rows| - 1], year, month, item);
      assert rows == rows[..|rows| - 1] + [rows[|rows| - 1]];
    }
  }

  lemma {:induction false} InOldInterestItems(a: Archive, rows: seq<InterestRow>, year: int, month: int, item: Item)
    ensures item in OldInterestItems(a, rows, year, month) <==>
            exists r | r in rows :: IsOldInterest(a, r) && InMonth(r.createdOn, year, month)
                                    && item == Item(INTEREST_ADDED, r.createdOn, None, r.event.value.title)
  {
    if rows != [] {
      InOldInterestItems(a, rows[..|rows| - 1], year, month, item);
      assert rows == rows[..|rows| - 1] + [rows[|rows| - 1]];
    }
  }

  // Each source's match dates, as a set.

  lemma {:induction false} InMatchingStarts(rows: seq<StatusRow>, q: string, matches: (string, string) -> bool, d: Date)
    ensures d in MatchingStarts(rows, q, matches) <==>
            exists r | r in rows :: IsScheduled(r) && matches(r.event.value.title, q) && r.event.value.startDate.value == d
  {
    if rows != [] {
      InMatchingStarts(rows[..|rows| - 1], q, matches, d);
      assert rows == rows[..|rows| - 1] + [rows[|rows| - 1]];
    }
  }

  lemma {:induction false} InMatchingVisits(rows: seq<VisitRow>, q: string, matches: (string, string) -> bool, d: Date)
    requires OneSubjectEach(rows)
    ensures d in MatchingVisits(rows, q, matches) <==> exists r | r in rows :: matches(VisitLabel(r), q) && r.visitedOn == d
  {
    if rows != [] {
      InMatchingVisits(rows[..|rows| - 1], q, matches, d);
      assert rows == rows[..|rows| - 1] + [rows[|rows| - 1]];
    }
  }

  lemma {:induction false} InMatchingGoods(rows: seq<GoodsRow>, q: string, matches: (string, string) -> bool, d: Date)
    ensures d in MatchingGoods(rows, q, matches) <==> exists r | r in rows :: matches(r.name, q) && GoodsDate(r) == d
  {
    if rows != [] {
      InMatchingGoods(rows[..|rows| - 1], q, matches, d);
      assert rows == rows[..|rows| - 1] + [rows[|rows| - 1]];
    }
  }

  lemma {:induction false} InMatchingLogs(rows: seq<LogRow>, q: string, kinds: Option<set<string>>,
                                          matches: (string, string) -> bool, d: Date)
    ensures d in MatchingLogs(rows, q, kinds, matches) <==>
            exists r | r in rows :: matches(r.subjectLabel, q) && Allowed(r.kind, kinds) && r.occurredOn == d
  {
    if rows != [] {
      InMatchingLogs(rows[..|rows| - 1], q, kinds, matches, d);
      assert rows == rows[..|rows| - 1] + [rows[|rows| - 1]];
    }
  }

  lemma {:induction false} InMatchingInterests(a: Archive, rows: seq<InterestRow>, q: string, matches: (string, string) -> bool, d: Date)
    ensures d in MatchingInterests(a, rows, q, matches) <==>
            exists r | r in rows :: IsOldInterest(a, r) && matches(r.event.value.title, q) && r.createdOn == d
  {
    if rows != [] {
      InMatchingInterests(a, rows[..|rows| - 1], q, matches, d);
      assert rows == rows[..|rows| - 1] + [rows[|rows| - 1]];
    }
  }

  /** The rows behind the search. */
  ghost predicate Found(a: Archive, q: string, kinds: Option<set<string>>, matches: (string, string) -> bool, d: Date)
    requires OneSubjectEach(a.visits)
  {
    || (Allowed(SCHEDULE_KIND, kinds)
        && exists r | r in a.statuses :: IsScheduled(r) && matches(r.event.value.title, q) && r.event.value.startDate.value == d)
    || (Allowed(VISIT_KIND, kinds) && exists r | r in a.visits :: matches(VisitLabel(r), q) && r.visitedOn == d)
    || (Allowed(GOODS_ACQUIRED_KIND, kinds) && exists r | r in a.goods :: matches(r.name, q) && GoodsDate(r) == d)
    || (exists r | r in a.logs :: matches(r.subjectLabel, q) && Allowed(r.kind, kinds) && r.occurredOn == d)
    || (Allowed(INTEREST_ADDED, kinds)
        && exists r | r in a.interests :: IsOldInterest(a, r) && matches(r.event.value.title, q) && r.createdOn == d)
  }

  predicate InSome(sources: seq<seq<Date>>, d: Date) {
    sources != [] && (d in sources[0] || InSome(sources[1..], d))
  }

  lemma {:induction false} LatestOfEachIsIn(sources: seq<seq<Date>>, d: Date)
    requires d in LatestOfEach(sources)
    ensures InSome(sources, d)
  {
    var latest := MaxDate(sources[0]);
    if !(latest.Some? && latest.value == d) {
      LatestOfEachIsIn(sources[1..], d);
    }
  }

  lemma {:induction false} LatestOfEachCovers(sources: seq<seq<Date>>, d: Date) returns (e: Date)
    requires InSome(sources, d)
    ensures e in LatestOfEach(sources) && AtMost(d, e)
  {
    if d in sources[0] {
      e := MaxDate(sources[0]).value;
    } else {
      e := LatestOfEachCovers(sources[1..], d);
    }
  }

  lemma LatestIsLatest(sources: seq<seq<Date>>, d: Date)
    ensures var r := MaxDate(LatestOfEach(sources));
            && (InSome(sources, d) ==> r.Some? && AtMost(d, r.value))
            && (r.Some? ==> InSome(sources, r.value))
  {
    var latest := LatestOfEach(sources);
    if MaxDate(latest).Some? {
      LatestOfEachIsIn(sources, MaxDate(latest).value);
    }
    if InSome(sources, d) {
      var e := LatestOfEachCovers(sources, d);
      assert AtMost(e, MaxDate(latest).value);
    }
  }

  lemma MatchDatesAreFound(a: Archive, q: string, kinds: Option<set<string>>, matches: (string, string) -> bool, d: Date)
    requires OneSubjectEach(a.visits)
    ensures InSome(MatchDates(a, q, kinds, matches), d) <==> Found(a, q, kinds, matches, d)
  {
    InMatchingStarts(a.statuses, q, matches, d);
    InMatchingVisits(a.visits, q, matches, d);
    InMatchingGoods(a.goods, q, matches, d);
    InMatchingLogs(a.logs, q, kinds, matches, d);
    InMatchingInterests(a, a.interests, q, matches, d);
    InSomeOfFive(MatchDates(a, q, kinds, matches), d);
  }

  lemma InSomeOfFive(dates: seq<seq<Date>>, d: Date)
    requires |dates| == 5
    ensures InSome(dates, d) <==> d in dates[0] || d in dates[1] || d in dates[2] || d in dates[3] || d in dates[4]
  {
    assert InSome(dates[1..], d) <==> d in dates[1] || InSome(dates[2..], d);
    assert InSome(dates[2..], d) <==> d in dates[2] || InSome(dates[3..], d);
    assert InSome(dates[3..], d) <==> d in dates[3] || InSome(dates[4..], d);
    assert InSome(dates[4..], d) <==> d in dates[4];
  }

  /** What a month lists, by source. */
  lemma InListForMonth(a: Archive, year: int, month: int, kinds: Option<set<string>>, item: Item)
    requires ValidArchive(a)
    ensures item in ListForMonth(a, year, month, kinds) <==>
            && Allowed(item.kind, kinds)
            && (|| item in ScheduleItems(a.statuses, year, month) || item in VisitItems(a.visits, year, month)
                || item in GoodsItems(a.goods, year, month) || item in LogItems(a.logs, year, month)
                || item in OldInterestItems(a, a.interests, year, month))
  {
    InOfKinds(ScheduleItems(a.statuses, year, month) + VisitItems(a.visits, year, month) + GoodsItems(a.goods, year, month)
              + LogItems(a.logs, year, month) + OldInterestItems(a, a.interests, year, month), kinds, item);
  }

  lemma ListedIsFound(a: Archive, q: string, kinds: Option<set<string>>, matches: (string, string) -> bool,
                      year: int, month: int, item: Item)
    requires ValidArchive(a) && item in ListForMonth(a, year, month, kinds) && matches(item.caption, q)
    ensures Found(a, q, kinds, matches, item.on)
  {
    InListForMonth(a, year, month, kinds, item);
    InScheduleItems(a.statuses, year, month, item);
    InVisitItems(a.visits, year, month, item);
    InGoodsItems(a.goods, year, month, item);
    InLogItems(a.logs, year, month, item);
    InOldInterestItems(a, a.interests, year, month, item);
  }

  lemma ListedBy(a: Archive, q: string, kinds: Option<set<string>>, matches: (string, string) -> bool, item: Item)
    requires ValidArchive(a) && ValidDate(item.on) && matches(item.caption, q)
    requires item in ListForMonth(a, item.on.year, item.on.month, kinds)
    ensures Listed(a, q, kinds, matches, item.on)
  {
  }

  lemma FoundIsListed(a: Archive, q: string, kinds: Option<set<string>>, matches: (string, string) -> bool, d: Date)
    requires ValidArchive(a) && Found(a, q, kinds, matches, d)
    ensures Listed(a, q, kinds, matches, d)
  {
    var y, m := d.year, d.month;
    if r :| r in a.statuses && Allowed(SCHEDULE_KIND, kinds) && IsScheduled(r) && matches(r.event.value.title, q)
            && r.event.value.startDate.value == d {
      var item := ScheduleItem(r);
      OneMonthEach(d, y, m);
      assert Schedules(r, y, m, item);
      InScheduleItems(a.statuses, y, m, item);
      InListForMonth(a, y, m, kinds, item);
      ListedBy(a, q, kinds, matches, item);
    } else if r :| r in a.visits && Allowed(VISIT_KIND, kinds) && matches(VisitLabel(r), q) && r.visitedOn == d {
      var item := Item(VISIT_KIND, d, None, VisitLabel(r));
      OneMonthEach(d, y, m);
      InVisitItems(a.visits, y, m, item);
      InListForMonth(a, y, m, kinds, item);
      ListedBy(a, q, kinds, matches, item);
    } else if r :| r in a.goods && Allowed(GOODS_ACQUIRED_KIND, kinds) && matches(r.name, q) && GoodsDate(r) == d {
      var item := Item(GOODS_ACQUIRED_KIND, d, None, r.name);
      OneMonthEach(d, y, m);
      InGoodsItems(a.goods, y, m, item);
      InListForMonth(a, y, m, kinds, item);
      ListedBy(a, q, kinds, matches, item);
    } else if r :| r in a.logs && matches(r.subjectLabel, q) && Allowed(r.kind, kinds) && r.occurredOn == d {
      var item := Item(r.kind, d, None, r.subjectLabel);
      OneMonthEach(d, y, m);
      InLogItems(a.logs, y, m, item);
      InListForMonth(a, y, m, kinds, item);
      ListedBy(a, q, kinds, matches, item);
    } else {
      var r :| r in a.interests && IsOldInterest(a, r) && matches(r.event.value.title, q) && r.createdOn == d;
      var item := Item(INTEREST_ADDED, d, None, r.event.value.title);
      OneMonthEach(d, y, m);
      InOldInterestItems(a, a.interests, y, m, item);
      InListForMonth(a, y, m, kinds, item);
      ListedBy(a, q, kinds, matches, item);
    }
  }

  lemma MatchesAreListed(a: Archive, q: string, kinds: Option<set<string>>, matches: (string, string) -> bool, d: Date)
    requires ValidArchive(a)
    ensures InSome(MatchDates(a, q, kinds, matches), d) <==> Listed(a, q, kinds, matches, d)
  {
    MatchDatesAreFound(a, q, kinds, matches, d);
    if Found(a, q, kinds, matches, d) {
      FoundIsListed(a, q, kinds, matches, d);
    }
    if Listed(a, q, kinds, matches, d) {
      var year: int, month: int, item :|
        1 <= month <= 12 && item in ListForMonth(a, year, month, kinds) && matches(item.caption, q) && item.on == d;
      ListedIsFound(a, q, kinds, matches, year, month, item);
    }
  }

  /** The search is the brute force over all months: its answer is the latest date on which any month lists (or starts)
      an item that matches and may be shown, and it answers nothing exactly when there is none. */
  lemma SearchEqualsBruteForce(a: Archive, query: string, kinds: Option<set<string>>, matches: (string, string) -> bool)
    requires ValidArchive(a) && Strip(query) != ""
    ensures var r := FindLatestActivityDate(a, query, kinds, matches);
            && (r.None? <==> forall d :: !Listed(a, Strip(query), kinds, matches, d))
            && (r.Some? ==> Listed(a, Strip(query), kinds, matches, r.value)
                            && forall d | Listed(a, Strip(query), kinds, matches, d) :: AtMost(d, r.value))
  {
    var q, r := Strip(query), FindLatestActivityDate(a, query, kinds, matches);
    var dates := MatchDates(a, q, kinds, matches);
    if r.Some? {
      LatestIsLatest(dates, r.value);
      MatchesAreListed(a, q, kinds, matches, r.value);
    }
    forall d | Listed(a, q, kinds, matches, d)
      ensures r.Some? && AtMost(d, r.value)
    {
      MatchesAreListed(a, q, kinds, matches, d);
      LatestIsLatest(dates, d);
    }
  }

  /** Why start <= end is needed: a planned event with both dates is always found at its start, but some month shows it
      exactly when its end is not before the month of its start. */
  lemma EventIsFoundAtItsStart(e: Event, q: string, matches: (string, string) -> bool)
    requires e.startDate.Some? && Strip(q) != "" && matches(e.title, Strip(q))
    ensures FindLatestActivityDate(Archive([StatusRow(true, Some(e))], [], [], [], []), q, None, matches) == e.startDate
  {
    var row, d := StatusRow(true, Some(e)), e.startDate.value;
    var a := Archive([row], [], [], [], []);
    assert [row][..0] == [];
    assert MatchingStarts([row], Strip(q), matches) == [d];
    assert MatchDates(a, Strip(q), None, matches) == [[d], [], [], [], []];
    assert LatestOfEach([[d], [], [], [], []][1..]) == [] by {
      NoDatesNoLatest([[d], [], [], [], []][1..]);
    }
    assert MaxDate([d][..0]) == None;
  }

  lemma {:induction false} NoDatesNoLatest(sources: seq<seq<Date>>)
    requires forall i | 0 <= i < |sources| :: |sources[i]| == 0
    ensures LatestOfEach(sources) == []
  {
    if sources != [] {
      assert |sources[0]| == 0;
      NoDatesNoLatest(sources[1..]);
    }
  }

  lemma ReversedEventIsNotListed(e: Event)
    requires e.startDate.Some? && e.endDate.Some? && ValidDate(e.startDate.value) && ValidDate(e.endDate.value)
    ensures var d := e.startDate.value;
            (exists year: int, month: int :: 1 <= month <= 12 && ScheduleItems([StatusRow(true, Some(e))], year, month) != []) <==>
            AtMost(MonthStart(d.year, d.month), e.endDate.value)
  {
    var row, d := StatusRow(true, Some(e)), e.startDate.value;
    assert [row][..0] == [];
    if AtMost(MonthStart(d.year, d.month), e.endDate.value) {
      assert ScheduleItems([row], d.year, d.month) == [ScheduleItem(row)];
    }
    forall year: int, month: int | 1 <= month <= 12 && ScheduleItems([row], year, month) != []
      ensures AtMost(MonthStart(d.year, d.month), e.endDate.value)
    {
      assert ScheduleItems([], year, month) == [];
      assert AtMost(d, MonthEnd(year, month)) && AtMost(MonthStart(year, month), e.endDate.value);
    }
  }

  // ---------------------------------------------------------------- what a month shows, in terms of the rows alone

  predicate InThatMonth(d: Date, year: int, month: int) {
    d.year == year && d.month == month
  }

  /** A planned event is shown in every month from that of its start to that of its end. */
  predicate ShowsEvent(r: StatusRow, year: int, month: int, item: Item) {
    && r.planned && r.event.Some? && r.event.value.startDate.Some?
    && var e, from := r.event.value, r.event.value.startDate.value;
       var till := if e.endDate.Some? then e.endDate.value else from;
       && 12 * from.year + from.month <= 12 * year + month <= 12 * till.year + till.month
       && item == Item("schedule", from, Some(till), e.title)
  }

  predicate ShowsVisit(r: VisitRow, year: int, month: int, item: Item) {
    && InThatMonth(r.visitedOn, year, month) && item == Item("visit", r.visitedOn, None, item.caption)
    && (r.eventTitle == Some(item.caption) || r.entryTitle == Some(item.caption))
  }

  predicate ShowsGoods(r: GoodsRow, year: int, month: int, item: Item) {
    && InThatMonth(item.on, year, month) && item == Item("goods_acquired", item.on, None, r.name)
    && (if r.acquiredOn == None then item.on == r.createdOn else r.acquiredOn == Some(item.on))
  }

  predicate ShowsLog(r: LogRow, year: int, month: int, item: Item) {
    InThatMonth(r.occurredOn, year, month) && item == Item(r.kind, r.occurredOn, None, r.subjectLabel)
  }

  /** An interest is shown only when no log row says that the event was marked. */
  predicate ShowsInterest(a: Archive, r: InterestRow, year: int, month: int, item: Item) {
    && r.event.Some? && (forall l | l in a.logs :: !(l.kind == "interest_added" && l.event == Some(r.event.value.id)))
    && InThatMonth(r.createdOn, year, month) && item == Item("interest_added", r.createdOn, None, r.event.value.title)
  }

  predicate Shows(a: Archive, year: int, month: int, item: Item) {
    || (exists r | r in a.statuses :: ShowsEvent(r, year, month, item))
    || (exists r | r in a.visits :: ShowsVisit(r, year, month, item))
    || (exists r | r in a.goods :: ShowsGoods(r, year, month, item))
    || (exists r | r in a.logs :: ShowsLog(r, year, month, item))
    || (exists r | r in a.interests :: ShowsInterest(a, r, year, month, item))
  }

  /** The bounds of a month order dates by their months. */
  lemma BoundsOrderMonths(d: Date, year: int, month: int)
    requires ValidDate(d) && 1 <= month <= 12
    ensures AtMost(d, MonthEnd(year, month)) <==> 12 * d.year + d.month <= 12 * year + month
    ensures AtMost(MonthStart(year, month), d) <==> 12 * year + month <= 12 * d.year + d.month
  {
  }

  lemma ScheduledIsShown(r: StatusRow, year: int, month: int, item: Item)
    requires 1 <= month <= 12 && (r.event.Some? ==> ValidEvent(r.event.value))
    ensures Schedules(r, year, month, item) <==> ShowsEvent(r, year, month, item)
  {
    if r.event.Some? {
      var e := r.event.value;
      if e.startDate.Some? {
        BoundsOrderMonths(e.startDate.value, year, month);
        if e.endDate.Some? {
          BoundsOrderMonths(e.endDate.value, year, month);
        }
      }
    }
  }

  lemma EventsAreShown(a: Archive, year: int, month: int, item: Item)
    requires ValidArchive(a) && 1 <= month <= 12
    ensures item in ScheduleItems(a.statuses, year, month) <==> exists r | r in a.statuses :: ShowsEvent(r, year, month, item)
  {
    InScheduleItems(a.statuses, year, month, item);
    forall r | r in a.statuses
      ensures Schedules(r, year, month, item) <==> ShowsEvent(r, year, month, item)
    {
      ScheduledIsShown(r, year, month, item);
    }
  }

  lemma VisitsAreShown(a: Archive, year: int, month: int, item: Item)
    requires ValidArchive(a) && 1 <= month <= 12
    ensures item in VisitItems(a.visits, year, month) <==> exists r | r in a.visits :: ShowsVisit(r, year, month, item)
  {
    InVisitItems(a.visits, year, month, item);
    forall r | r in a.visits
      ensures InMonth(r.visitedOn, year, month) && item == Item(VISIT_KIND, r.visitedOn, None, VisitLabel(r))
              <==> ShowsVisit(r, year, month, item)
    {
      OneMonthEach(r.visitedOn, year, month);
    }
  }

  lemma GoodsAreShown(a: Archive, year: int, month: int, item: Item)
    requires ValidArchive(a) && 1 <= month <= 12
    ensures item in GoodsItems(a.goods, year, month) <==> exists r | r in a.goods :: ShowsGoods(r, year, month, item)
  {
    InGoodsItems(a.goods, year, month, item);
    forall r | r in a.goods
      ensures InMonth(GoodsDate(r), year, month) && item == Item(GOODS_ACQUIRED_KIND, GoodsDate(r), None, r.name)
              <==> ShowsGoods(r, year, month, item)
    {
      OneMonthEach(GoodsDate(r), year, month);
    }
  }

  lemma LogsAreShown(a: Archive, year: int, month: int, item: Item)
    requires ValidArchive(a) && 1 <= month <= 12
    ensures item in LogItems(a.logs, year, month) <==> exists r | r in a.logs :: ShowsLog(r, year, month, item)
  {
    InLogItems(a.logs, year, month, item);
    forall r | r in a.logs
      ensures InMonth(r.occurredOn, year, month) <==> InThatMonth(r.occurredOn, year, month)
    {
      OneMonthEach(r.occurredOn, year, month);
    }
  }

  lemma InterestsAreShown(a: Archive, year: int, month: int, item: Item)
    requires ValidArchive(a) && 1 <= month <= 12
    ensures item in OldInterestItems(a, a.interests, year, month) <==>
            exists r | r in a.interests :: ShowsInterest(a, r, year, month, item)
  {
    InOldInterestItems(a, a.interests, year, month, item);
    forall r | r in a.interests
      ensures (IsOldInterest(a, r) && InMonth(r.createdOn, year, month)
               && item == Item(INTEREST_ADDED, r.createdOn, None, r.event.value.title)) <==> ShowsInterest(a, r, year, month, item)
    {
      OneMonthEach(r.createdOn, year, month);
    }
  }

  /** A month lists exactly the items that the rows call for, of the kinds that were asked for. */
  lemma AMonthListsWhatTheRowsShow(a: Archive, year: int, month: int, kinds: Option<set<string>>, item: Item)
    requires ValidArchive(a) && 1 <= month <= 12
    ensures item in ListForMonth(a, year, month, kinds) <==>
            Shows(a, year, month, item) && (kinds == None || item.kind in kinds.value)
  {
    InListForMonth(a, year, month, kinds, item);
    EventsAreShown(a, year, month, item);
    VisitsAreShown(a, year, month, item);
    GoodsAreShown(a, year, month, item);
    LogsAreShown(a, year, month, item);
    InterestsAreShown(a, year, month, item);
  }

  /** The search answers nothing to a query of white space, and otherwise the latest date that any month shows. */
  lemma TheSearchFindsWhatIsShown(a: Archive, query: string, kinds: Option<set<string>>, matches: (string, string) -> bool)
    requires ValidArchive(a)
    ensures var r := FindLatestActivityDate(a, query, kinds, matches);
            && (Strip(query) == "" ==> r == None)
            && forall year: int, month: int, item | 1 <= month <= 12 && Strip(query) != "" && Shows(a, year, month, item) ::
                 (kinds == None || item.kind in kinds.value) && matches(item.caption, Strip(query))
                 ==> r.Some? && AtMost(item.on, r.value)
    ensures var r := FindLatestActivityDate(a, query, kinds, matches);
            r.Some? ==> exists year: int, month: int, item ::
              && 1 <= month <= 12 && Shows(a, year, month, item) && item.on == r.value
              && (kinds == None || item.kind in kinds.value) && matches(item.caption, Strip(query))
  {
    var q, r := Strip(query), FindLatestActivityDate(a, query, kinds, matches);
    if q != "" {
      SearchEqualsBruteForce(a, query, kinds, matches);
      forall year: int, month: int, item | 1 <= month <= 12 && Shows(a, year, month, item)
        ensures (kinds == None || item.kind in kinds.value) && matches(item.caption, q) ==> r.Some? && AtMost(item.on, r.value)
      {
        AMonthListsWhatTheRowsShow(a, year, month, kinds, item);
        if (kinds == None || item.kind in kinds.value) && matches(item.caption, q) {
          assert Listed(a, q, kinds, matches, item.on);
        }
      }
      if r.Some? {
        var year: int, month: int, item :|
          1 <= month <= 12 && item in ListForMonth(a, year, month, kinds) && matches(item.caption, q) && item.on == r.value;
        AMonthListsWhatTheRowsShow(a, year, month, kinds, item);
      }
    }
  }

  // ---------------------------------------------------------------- one row, one item

  lemma {:induction false} OfKindsInTwo(u: seq<Item>, v: seq<Item>, kinds: Option<set<string>>)
    ensures OfKinds(u + v, kinds) == OfKinds(u, kinds) + OfKinds(v, kinds)
  {
    if v == [] {
      assert u + v == u;
    } else {
      assert (u + v)[..|u + v| - 1] == u + v[..|v| - 1];
      OfKindsInTwo(u, v[..|v| - 1], kinds);
    }
  }

  /** A month, source by source. */
  function Sources(a: Archive, year: int, month: int): seq<seq<Item>>
    requires ValidArchive(a)
  {
    [ ScheduleItems(a.statuses, year, month), VisitItems(a.visits, year, month), GoodsItems(a.goods, year, month),
      LogItems(a.logs, year, month), OldInterestItems(a, a.interests, year, month)]
  }

  function Joined(parts: seq<seq<Item>>): seq<Item> {
    if parts == [] then [] else parts[0] + Joined(parts[1..])
  }

  lemma JoinedFive(parts: seq<seq<Item>>)
    requires |parts| == 5
    ensures Joined(parts) == parts[0] + parts[1] + parts[2] + parts[3] + parts[4]
  {
    assert Joined(parts[5..]) == [];
    assert Joined(parts[4..]) == parts[4] + Joined(parts[4..][1..]) && parts[4..][1..] == parts[5..];
    assert Joined(parts[3..]) == parts[3] + Joined(parts[3..][1..]) && parts[3..][1..] == parts[4..];
    assert Joined(parts[2..]) == parts[2] + Joined(parts[2..][1..]) && parts[2..][1..] == parts[3..];
    assert Joined(parts[1..]) == parts[1] + Joined(parts[1..][1..]) && parts[1..][1..] == parts[2..];
  }

  lemma {:induction false} PutIn(parts: seq<seq<Item>>, k: nat, more: seq<Item>) returns (u: seq<Item>, v: seq<Item>)
    requires k < |parts|
    ensures Joined(parts) == u + v && Joined(parts[k := parts[k] + more]) == u + more + v
  {
    if k == 0 {
      u, v := parts[0], Joined(parts[1..]);
    } else {
      u, v := PutIn(parts[1..], k - 1, more);
      assert parts[k := parts[k] + more][1..] == parts[1..][k - 1 := parts[k] + more];
      u := parts[0] + u;
    }
  }

  function Listing(item: Option<Item>): seq<Item> {
    if item.Some? then [item.value] else []
  }

  /** `after` is `before` with `item` put in, if it is given and of a kind that was asked for. */
  ghost predicate IsPutIn(before: seq<Item>, after: seq<Item>, item: Option<Item>, kinds: Option<set<string>>) {
    exists u, v {:trigger u + v} ::
      before == u + v && after == u + (if item.Some? && (kinds == None || item.value.kind in kinds.value) then [item.value] else []) + v
  }

  lemma OfKindsPutsIn(u: seq<Item>, item: Option<Item>, v: seq<Item>, kinds: Option<set<string>>)
    ensures IsPutIn(OfKinds(u + v, kinds), OfKinds(u + Listing(item) + v, kinds), item, kinds)
  {
    OfKindsInTwo(u, v, kinds);
    OfKindsInTwo(u + Listing(item), v, kinds);
    OfKindsInTwo(u, Listing(item), kinds);
    if item.Some? {
      assert [item.value][..0] == [];
    }
    assert OfKinds(u + v, kinds) == OfKinds(u, kinds) + OfKinds(v, kinds);
  }

  lemma OneSourceGrows(a: Archive, b: Archive, year: int, month: int, kinds: Option<set<string>>, k: nat, item: Option<Item>)
    requires ValidArchive(a) && ValidArchive(b) && k < 5
    requires forall j | 0 <= j < 5 && j != k :: Sources(b, year, month)[j] == Sources(a, year, month)[j]
    requires Sources(b, year, month)[k] == Sources(a, year, month)[k] + Listing(item)
    ensures IsPutIn(ListForMonth(a, year, month, kinds), ListForMonth(b, year, month, kinds), item, kinds)
  {
    var before := Sources(a, year, month);
    JoinedFive(before);
    JoinedFive(Sources(b, year, month));
    var u, v := PutIn(before, k, Listing(item));
    assert Sources(b, year, month) == before[k := before[k] + Listing(item)];
    OfKindsPutsIn(u, item, v, kinds);
  }

  lemma {:induction false} SameLogsSameInterests(a: Archive, b: Archive, rows: seq<InterestRow>, year: int, month: int)
    requires LoggedEvents(a) == LoggedEvents(b)
    ensures OldInterestItems(a, rows, year, month) == OldInterestItems(b, rows, year, month)
  {
    if rows != [] {
      SameLogsSameInterests(a, b, rows[..|rows| - 1], year, month);
    }
  }

  // A new row puts the one item that it calls for into the list, and changes nothing otherwise. A log row that says that an
  // event was marked also takes the place of its interests.

  lemma EventsGrow(a: Archive, b: Archive, r: StatusRow, year: int, month: int, item: Option<Item>)
    requires ValidArchive(a) && ValidArchive(b) && b == a.(statuses := a.statuses + [r]) && 1 <= month <= 12
    requires item.Some? ==> ShowsEvent(r, year, month, item.value)
    requires item.None? ==> forall it :: !ShowsEvent(r, year, month, it)
    ensures ScheduleItems(b.statuses, year, month) == ScheduleItems(a.statuses, year, month) + Listing(item)
  {
    assert b.statuses[..|b.statuses| - 1] == a.statuses;
    if item.Some? {
      ScheduledIsShown(r, year, month, item.value);
    } else if IsScheduled(r) {
      ScheduledIsShown(r, year, month, ScheduleItem(r));
      assert !ShowsEvent(r, year, month, ScheduleItem(r));
    }
  }

  lemma OneItemAnEvent(a: Archive, b: Archive, r: StatusRow, year: int, month: int, kinds: Option<set<string>>, item: Option<Item>)
    requires ValidArchive(a) && ValidArchive(b) && b == a.(statuses := a.statuses + [r]) && 1 <= month <= 12
    requires item.Some? ==> ShowsEvent(r, year, month, item.value)
    requires item.None? ==> forall it :: !ShowsEvent(r, year, month, it)
    ensures IsPutIn(ListForMonth(a, year, month, kinds), ListForMonth(b, year, month, kinds), item, kinds)
  {
    EventsGrow(a, b, r, year, month, item);
    SameLogsSameInterests(a, b, a.interests, year, month);
    OneSourceGrows(a, b, year, month, kinds, 0, item);
  }

  lemma VisitsGrow(a: Archive, b: Archive, r: VisitRow, year: int, month: int, item: Option<Item>)
    requires ValidArchive(a) && ValidArchive(b) && b == a.(visits := a.visits + [r]) && 1 <= month <= 12
    requires item.Some? ==> ShowsVisit(r, year, month, item.value)
    requires item.None? ==> forall it :: !ShowsVisit(r, year, month, it)
    ensures VisitItems(b.visits, year, month) == VisitItems(a.visits, year, month) + Listing(item)
  {
    assert b.visits[..|b.visits| - 1] == a.visits;
    OneMonthEach(r.visitedOn, year, month);
    if item.None? {
      assert !ShowsVisit(r, year, month, Item("visit", r.visitedOn, None, VisitLabel(r)));
    }
  }

  lemma OneItemAVisit(a: Archive, b: Archive, r: VisitRow, year: int, month: int, kinds: Option<set<string>>, item: Option<Item>)
    requires ValidArchive(a) && ValidArchive(b) && b == a.(visits := a.visits + [r]) && 1 <= month <= 12
    requires item.Some? ==> ShowsVisit(r, year, month, item.value)
    requires item.None? ==> forall it :: !ShowsVisit(r, year, month, it)
    ensures IsPutIn(ListForMonth(a, year, month, kinds), ListForMonth(b, year, month, kinds), item, kinds)
  {
    VisitsGrow(a, b, r, year, month, item);
    SameLogsSameInterests(a, b, a.interests, year, month);
    OneSourceGrows(a, b, year, month, kinds, 1, item);
  }

  lemma GoodsGrow(a: Archive, b: Archive, r: GoodsRow, year: int, month: int, item: Option<Item>)
    requires ValidArchive(a) && ValidArchive(b) && b == a.(goods := a.goods + [r]) && 1 <= month <= 12
    requires item.Some? ==> ShowsGoods(r, year, month, item.value)
    requires item.None? ==> forall it :: !ShowsGoods(r, year, month, it)
    ensures GoodsItems(b.goods, year, month) == GoodsItems(a.goods, year, month) + Listing(item)
  {
    assert b.goods[..|b.goods| - 1] == a.goods;
    OneMonthEach(GoodsDate(r), year, month);
    if item.None? {
      assert !ShowsGoods(r, year, month, Item("goods_acquired", GoodsDate(r), None, r.name));
    }
  }

  lemma OneItemAGoodsRow(a: Archive, b: Archive, r: GoodsRow, year: int, month: int, kinds: Option<set<string>>, item: Option<Item>)
    requires ValidArchive(a) && ValidArchive(b) && b == a.(goods := a.goods + [r]) && 1 <= month <= 12
    requires item.Some? ==> ShowsGoods(r, year, month, item.value)
    requires item.None? ==> forall it :: !ShowsGoods(r, year, month, it)
    ensures IsPutIn(ListForMonth(a, year, month, kinds), ListForMonth(b, year, month, kinds), item, kinds)
  {
    GoodsGrow(a, b, r, year, month, item);
    SameLogsSameInterests(a, b, a.interests, year, month);
    OneSourceGrows(a, b, year, month, kinds, 2, item);
  }

  lemma LogsGrow(a: Archive, b: Archive, r: LogRow, year: int, month: int, item: Option<Item>)
    requires ValidArchive(a) && ValidArchive(b) && b == a.(logs := a.logs + [r]) && 1 <= month <= 12
    requires item.Some? ==> ShowsLog(r, year, month, item.value)
    requires item.None? ==> forall it :: !ShowsLog(r, year, month, it)
    ensures LogItems(b.logs, year, month) == LogItems(a.logs, year, month) + Listing(item)
  {
    assert b.logs[..|b.logs| - 1] == a.logs;
    OneMonthEach(r.occurredOn, year, month);
    if item.None? {
      assert !ShowsLog(r, year, month, Item(r.kind, r.occurredOn, None, r.subjectLabel));
    }
  }

  lemma OneItemALogRow(a: Archive, b: Archive, r: LogRow, year: int, month: int, kinds: Option<set<string>>, item: Option<Item>)
    requires ValidArchive(a) && ValidArchive(b) && b == a.(logs := a.logs + [r]) && 1 <= month <= 12
    requires r.kind == "interest_added" ==> r.event.None?
    requires item.Some? ==> ShowsLog(r, year, month, item.value)
    requires item.None? ==> forall it :: !ShowsLog(r, year, month, it)
    ensures IsPutIn(ListForMonth(a, year, month, kinds), ListForMonth(b, year, month, kinds), item, kinds)
  {
    LogsGrow(a, b, r, year, month, item);
    assert LoggedEvents(b) == LoggedEvents(a);
    SameLogsSameInterests(a, b, a.interests, year, month);
    OneSourceGrows(a, b, year, month, kinds, 3, item);
  }

  lemma InterestsGrow(a: Archive, b: Archive, r: InterestRow, year: int, month: int, item: Option<Item>)
    requires ValidArchive(a) && ValidArchive(b) && b == a.(interests := a.interests + [r]) && 1 <= month <= 12
    requires item.Some? ==> ShowsInterest(a, r, year, month, item.value)
    requires item.None? ==> forall it :: !ShowsInterest(a, r, year, month, it)
    ensures OldInterestItems(b, b.interests, year, month) == OldInterestItems(a, a.interests, year, month) + Listing(item)
  {
    assert b.interests[..|b.interests| - 1] == a.interests;
    OneMonthEach(r.createdOn, year, month);
    SameLogsSameInterests(a, b, a.interests, year, month);
    if item.None? && r.event.Some? {
      assert !ShowsInterest(a, r, year, month, Item("interest_added", r.createdOn, None, r.event.value.title));
    }
  }

  lemma OneItemAnInterest(a: Archive, b: Archive, r: InterestRow, year: int, month: int, kinds: Option<set<string>>, item: Option<Item>)
    requires ValidArchive(a) && ValidArchive(b) && b == a.(interests := a.interests + [r]) && 1 <= month <= 12
    requires item.Some? ==> ShowsInterest(a, r, year, month, item.value)
    requires item.None? ==> forall it :: !ShowsInterest(a, r, year, month, it)
    ensures IsPutIn(ListForMonth(a, year, month, kinds), ListForMonth(b, year, month, kinds), item, kinds)
  {
    InterestsGrow(a, b, r, year, month, item);
    OneSourceGrows(a, b, year, month, kinds, 4, item);
  }
}

/** The monthly history archive and its backfill from the portal
    (`fetch_full_history` in peimar_bridge/peimar.py). */
module History {
  import opened Base
  import opened Normalize

  /** The four monthly totals kept per month, in kWh. */
  datatype MonthRecord = MonthRecord(pv: real, use: real, buy: real, sell: real)

  /** The archive: year -> month -> totals. The JSON file keys these by
      `str(year)` and `str(month)`; since `str` is injective on integers
      (Text.IntToStringInjective) the integer keys stand for them exactly. */
  type Archive = map<int, map<int, MonthRecord>>

  /** What one monthly-chart query gives the backfill: a failure (network,
      undecodable body, a body that is not an object) or the `viewBean`
      object, None when it is absent, null or not an object. */
  datatype MonthReply = Failed | Reply(bean: Option<JsonObject>)

  /** A reply yields a month entry when `viewBean` is a non-empty object
      and at least one of `pvElec` and `useElec` is not null. */
  predicate Recorded(reply: MonthReply) {
    && reply.Reply?
    && reply.bean.Some?
    && |reply.bean.value| > 0
    && (Get(reply.bean.value, "pvElec") != JNull || Get(reply.bean.value, "useElec") != JNull)
  }

  /** The totals recorded from a `viewBean`, each through `clean_value`. */
  function MakeRecord(bean: JsonObject, parse: string -> Option<real>): MonthRecord {
    MonthRecord(
      CleanValue(Get(bean, "pvElec"), parse),
      CleanValue(Get(bean, "useElec"), parse),
      CleanValue(Get(bean, "buyElec"), parse),
      CleanValue(Get(bean, "sellElec"), parse))
  }

  /** The last month queried in `year`: the current month in the current
      year, December otherwise. */
  function EndMonth(year: int, nowYear: int, nowMonth: int): int {
    if year == nowYear then nowMonth else 12
  }

  /** The (year, month) pairs a backfill queries: every month from January
      of `startYear` through the current month. */
  predicate InWindow(startYear: int, nowYear: int, nowMonth: int, y: int, m: int) {
    startYear <= y <= nowYear && 1 <= m <= EndMonth(y, nowYear, nowMonth)
  }

  /** Chronological order on (year, month) pairs. */
  predicate Before(a: (int, int), b: (int, int)) {
    a.0 < b.0 || (a.0 == b.0 && a.1 < b.1)
  }

  /** The number of months in the backfill window. */
  function WindowSize(startYear: int, nowYear: int, nowMonth: int): int {
    if startYear <= nowYear then 12 * (nowYear - startYear) + nowMonth else 0
  }

  /** The final filter of `fetch_full_history`: years in which no month was
      recorded are dropped, every recorded month is kept as it is. */
  function DropEmptyYears(a: Archive): (r: Archive)
    ensures forall y :: y in r ==> y in a && |r[y]| > 0
    ensures forall y :: y in a && |a[y]| > 0 ==> y in r
    ensures forall y, m :: y in r && m in r[y] <==> y in a && m in a[y]
    ensures forall y, m :: y in r && m in r[y] ==> r[y][m] == a[y][m]
  {
    map y | y in a && |a[y]| > 0 :: a[y]
  }

  /** `months` holds exactly the months 1 through `upto` of `year` whose
      replies are recorded, each with the totals its reply gives. */
  ghost predicate KeepsRecorded(months: map<int, MonthRecord>, year: int, upto: int, portal: (int, int) -> MonthReply, parse: string -> Option<real>) {
    && (forall m :: m in months <==> 1 <= m <= upto && Recorded(portal(year, m)))
    && (forall m :: m in months ==>
          Recorded(portal(year, m)) && months[m] == MakeRecord(portal(year, m).bean.value, parse))
  }

  /** One more month queried: it is added exactly when its reply is
      recorded. */
  lemma KeepsRecordedStep(months: map<int, MonthRecord>, year: int, month: int, portal: (int, int) -> MonthReply, parse: string -> Option<real>)
    requires month >= 1
    requires KeepsRecorded(months, year, month - 1, portal, parse)
    ensures Recorded(portal(year, month)) ==>
      KeepsRecorded(months[month := MakeRecord(portal(year, month).bean.value, parse)], year, month, portal, parse)
    ensures !Recorded(portal(year, month)) ==> KeepsRecorded(months, year, month, portal, parse)
  {
    if Recorded(portal(year, month)) {
      var next := months[month := MakeRecord(portal(year, month).bean.value, parse)];
      forall m ensures m in next <==> 1 <= m <= month && Recorded(portal(year, m)) {
        if m != month {
          assert m in next <==> m in months;
        }
      }
      forall m | m in next
        ensures Recorded(portal(year, m)) && next[m] == MakeRecord(portal(year, m).bean.value, parse)
      {
        if m != month {
          assert next[m] == months[m];
        }
      }
    }
  }

  /** One month queried: kept when its reply is recorded. */
  function AddMonth(months: map<int, MonthRecord>, year: int, month: int, portal: (int, int) -> MonthReply, parse: string -> Option<real>): (r: map<int, MonthRecord>)
    requires month >= 1
    requires KeepsRecorded(months, year, month - 1, portal, parse)
    ensures KeepsRecorded(r, year, month, portal, parse)
  {
    KeepsRecordedStep(months, year, month, portal, parse);
    var reply := portal(year, month);
    if Recorded(reply) then months[month := MakeRecord(reply.bean.value, parse)] else months
  }

  /** The inner loop of `fetch_full_history`: months 1 through `endMonth`
      of `year` queried in order, a month kept when its reply is recorded
      and skipped when the query failed or came back empty. */
  method FetchYear(year: int, endMonth: int, portal: (int, int) -> MonthReply, parse: string -> Option<real>)
    returns (months: map<int, MonthRecord>, asked: seq<(int, int)>)
    requires 1 <= endMonth <= 12
    ensures |asked| == endMonth
    ensures forall i :: 0 <= i < |asked| ==> asked[i] == (year, i + 1)
    ensures KeepsRecorded(months, year, endMonth, portal, parse)
  {
    months := map[];
    asked := [];
    var month := 1;
    while month <= endMonth
      invariant 1 <= month <= endMonth + 1
      invariant |asked| == month - 1
      invariant forall i :: 0 <= i < |asked| ==> asked[i] == (year, i + 1)
      invariant KeepsRecorded(months, year, month - 1, portal, parse)
    {
      asked := asked + [(year, month)];
      months := AddMonth(months, year, month, portal, parse);
      month := month + 1;
    }
  }

  /** The queries of years `startYear` up to (not including) `year`, in
      the order the backfill makes them. */
  function Queries(startYear: int, year: int, nowYear: int, nowMonth: int): seq<(int, int)>
    decreases year - startYear
  {
    if year <= startYear then []
    else
      var y := year - 1;
      var end := EndMonth(y, nowYear, nowMonth);
      Queries(startYear, y, nowYear, nowMonth)
        + seq(if end < 0 then 0 else end, i requires 0 <= i => (y, i + 1))
  }

  /** The backfill queries every month of its window once, in chronological
      order. */
  lemma {:induction false} QueriesCoverWindow(startYear: int, year: int, nowYear: int, nowMonth: int)
    requires 1 <= nowMonth <= 12
    requires startYear <= year && (year <= nowYear + 1 || year == startYear)
    ensures |Queries(startYear, year, nowYear, nowMonth)| ==
      (if year <= nowYear then 12 * (year - startYear) else WindowSize(startYear, nowYear, nowMonth))
    ensures forall i :: 0 <= i < |Queries(startYear, year, nowYear, nowMonth)| ==>
      var q := Queries(startYear, year, nowYear, nowMonth)[i];
      InWindow(startYear, nowYear, nowMonth, q.0, q.1) && q.0 < year
    ensures forall y, m :: InWindow(startYear, nowYear, nowMonth, y, m) && y < year ==>
      (y, m) in Queries(startYear, year, nowYear, nowMonth)
    ensures forall i, j :: 0 <= i < j < |Queries(startYear, year, nowYear, nowMonth)| ==>
      Before(Queries(startYear, year, nowYear, nowMonth)[i], Queries(startYear, year, nowYear, nowMonth)[j])
    decreases year - startYear
  {
    if year > startYear {
      var y := year - 1;
      var prev := Queries(startYear, y, nowYear, nowMonth);
      var end := EndMonth(y, nowYear, nowMonth);
      var q := Queries(startYear, year, nowYear, nowMonth);
      QueriesCoverWindow(startYear, y, nowYear, nowMonth);
      assert q == prev + seq(end, i requires 0 <= i => (y, i + 1));
      forall a, m | InWindow(startYear, nowYear, nowMonth, a, m) && a < year
        ensures (a, m) in q
      {
        if a == y {
          assert q[|prev| + m - 1] == (a, m);
        } else {
          assert (a, m) in prev;
        }
      }
    }
  }

  /** `all` holds exactly the recorded months of the window in the years
      before `year`, each with the totals its reply gives. */
  ghost predicate ArchiveKeepsRecorded(all: Archive, startYear: int, year: int, nowYear: int, nowMonth: int,
                                       portal: (int, int) -> MonthReply, parse: string -> Option<real>) {
    && (forall y :: y in all ==> startYear <= y < year)
    && (forall y, m :: y in all && m in all[y] <==>
          InWindow(startYear, nowYear, nowMonth, y, m) && Recorded(portal(y, m)) && y < year)
    && (forall y, m :: y in all && m in all[y] ==>
          Recorded(portal(y, m)) && all[y][m] == MakeRecord(portal(y, m).bean.value, parse))
  }

  /** Adding the months fetched for `year` extends the archive by one year. */
  lemma ArchiveKeepsRecordedStep(all: Archive, months: map<int, MonthRecord>, startYear: int, year: int,
                                 nowYear: int, nowMonth: int,
                                 portal: (int, int) -> MonthReply, parse: string -> Option<real>)
    requires startYear <= year <= nowYear
    requires ArchiveKeepsRecorded(all, startYear, year, nowYear, nowMonth, portal, parse)
    requires KeepsRecorded(months, year, EndMonth(year, nowYear, nowMonth), portal, parse)
    ensures ArchiveKeepsRecorded(all[year := months], startYear, year + 1, nowYear, nowMonth, portal, parse)
  {
    var next := all[year := months];
    forall y, m ensures y in next && m in next[y] <==>
      InWindow(startYear, nowYear, nowMonth, y, m) && Recorded(portal(y, m)) && y < year + 1
    {
      if y != year {
        assert y in next <==> y in all;
      }
    }
    forall y, m | y in next && m in next[y]
      ensures Recorded(portal(y, m)) && next[y][m] == MakeRecord(portal(y, m).bean.value, parse)
    {
      if y != year {
        assert next[y] == all[y];
      }
    }
  }

  /** After the last year, dropping the empty years leaves exactly the
      recorded months of the window. */
  lemma ArchiveKeepsRecordedFinal(all: Archive, startYear: int, year: int, nowYear: int, nowMonth: int,
                                  portal: (int, int) -> MonthReply, parse: string -> Option<real>)
    requires year > nowYear
    requires ArchiveKeepsRecorded(all, startYear, year, nowYear, nowMonth, portal, parse)
    ensures var h := DropEmptyYears(all);
      && (forall y, m :: y in h && m in h[y] <==>
            InWindow(startYear, nowYear, nowMonth, y, m) && Recorded(portal(y, m)))
      && (forall y, m :: y in h && m in h[y] ==>
            Recorded(portal(y, m)) && h[y][m] == MakeRecord(portal(y, m).bean.value, parse))
      && (forall y :: y in h ==> |h[y]| > 0)
  {
  }

  /** `fetch_full_history(start_year)` with the clock read as (`nowYear`,
      `nowMonth`) and the portal as the oracle `portal`. Returns the archive
      and the queries made, in order. */
  method FetchFullHistory(
    startYear: int, nowYear: int, nowMonth: int,
    portal: (int, int) -> MonthReply,
    parse: string -> Option<real>)
    returns (history: Archive, asked: seq<(int, int)>)
    requires 1 <= nowMonth <= 12
    // the queries: the whole window, once each, in chronological order
    ensures |asked| == WindowSize(startYear, nowYear, nowMonth)
    ensures forall i :: 0 <= i < |asked| ==> InWindow(startYear, nowYear, nowMonth, asked[i].0, asked[i].1)
    ensures forall y, m :: InWindow(startYear, nowYear, nowMonth, y, m) ==> (y, m) in asked
    ensures forall i, j :: 0 <= i < j < |asked| ==> Before(asked[i], asked[j])
    // the archive: exactly the recorded months of the window, no empty year
    ensures forall y, m :: y in history && m in history[y] <==>
      InWindow(startYear, nowYear, nowMonth, y, m) && Recorded(portal(y, m))
    ensures forall y, m :: y in history && m in history[y] ==>
      Recorded(portal(y, m)) && history[y][m] == MakeRecord(portal(y, m).bean.value, parse)
    ensures forall y :: y in history ==> |history[y]| > 0
  {
    var all: Archive := map[];
    asked := [];
    var year := startYear;
    while year <= nowYear
      invariant startYear <= year
      invariant year <= nowYear + 1 || year == startYear
      invariant asked == Queries(startYear, year, nowYear, nowMonth)
      invariant ArchiveKeepsRecorded(all, startYear, year, nowYear, nowMonth, portal, parse)
    {
      var endMonth := if year == nowYear then nowMonth else 12;
      var months, yearAsked := FetchYear(year, endMonth, portal, parse);
      assert yearAsked == seq(endMonth, i requires 0 <= i => (year, i + 1));
      asked := asked + yearAsked;
      ArchiveKeepsRecordedStep(all, months, startYear, year, nowYear, nowMonth, portal, parse);
      all := all[year := months];
      year := year + 1;
    }
    QueriesCoverWindow(startYear, year, nowYear, nowMonth);
    history := DropEmptyYears(all);
    ArchiveKeepsRecordedFinal(all, startYear, year, nowYear, nowMonth, portal, parse);
  }
}

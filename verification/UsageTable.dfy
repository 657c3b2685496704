/** The usage table of internal/storage/stats.go against the log of events it was built
    from. A user is the text the table stores for it. */
module UsageTable {
  import opened Dates

  const DOWNLOAD_SINGLE: string := "download_single"
  const DOWNLOAD_SET: string := "download_set"
  const INFO: string := "info"

  /** What a recorded event is about; also the unique key of a row. */
  datatype Event = Event(date: string, user: string, name: string)

  datatype Row = Row(key: Event, count: nat)

  /** INSERT ... ON CONFLICT DO UPDATE SET count = count + 1. */
  function Upsert(rows: seq<Row>, e: Event): seq<Row> {
    if rows == [] then [Row(e, 1)]
    else if rows[0].key == e then [Row(e, rows[0].count + 1)] + rows[1..]
    else [rows[0]] + Upsert(rows[1..], e)
  }

  /** The table after a log of events. */
  function Table(log: seq<Event>): seq<Row> {
    if log == [] then [] else Upsert(Table(log[..|log| - 1]), log[|log| - 1])
  }

  predicate UniqueKeys(rows: seq<Row>) {
    forall i, j | 0 <= i < j < |rows| :: rows[i].key != rows[j].key
  }

  /** SUM(count) over the rows whose key satisfies `p`, and the logged events that do. */
  function SumWhere(rows: seq<Row>, p: Event -> bool): nat {
    if rows == [] then 0 else (if p(rows[0].key) then rows[0].count else 0) + SumWhere(rows[1..], p)
  }

  function Logged(log: seq<Event>, p: Event -> bool): nat {
    if log == [] then 0 else Logged(log[..|log| - 1], p) + (if p(log[|log| - 1]) then 1 else 0)
  }

  predicate HasKey(rows: seq<Row>, k: Event) {
    exists r <- rows :: r.key == k
  }

  lemma {:induction false} UpsertSum(rows: seq<Row>, e: Event, p: Event -> bool)
    ensures SumWhere(Upsert(rows, e), p) == SumWhere(rows, p) + (if p(e) then 1 else 0)
  {
    if rows == [] {
      assert [Row(e, 1)][1..] == [];
    } else if rows[0].key == e {
      assert ([Row(e, rows[0].count + 1)] + rows[1..])[1..] == rows[1..];
    } else {
      assert ([rows[0]] + Upsert(rows[1..], e))[1..] == Upsert(rows[1..], e);
      UpsertSum(rows[1..], e, p);
    }
  }

  lemma HasKeyOfFirst(rows: seq<Row>, k: Event)
    requires rows != []
    ensures HasKey(rows, k) <==> rows[0].key == k || HasKey(rows[1..], k)
  {
    assert rows == [rows[0]] + rows[1..];
  }

  lemma {:induction false} UpsertKey(rows: seq<Row>, e: Event, k: Event)
    ensures HasKey(Upsert(rows, e), k) <==> k == e || HasKey(rows, k)
  {
    var after := Upsert(rows, e);
    HasKeyOfFirst(after, k);
    if rows == [] {
      assert after[1..] == [];
    } else {
      HasKeyOfFirst(rows, k);
      if rows[0].key == e {
        assert after[1..] == rows[1..];
      } else {
        assert after[1..] == Upsert(rows[1..], e);
        UpsertKey(rows[1..], e, k);
      }
    }
  }

  lemma {:induction false} UpsertUnique(rows: seq<Row>, e: Event)
    requires UniqueKeys(rows)
    ensures UniqueKeys(Upsert(rows, e))
  {
    if rows != [] && rows[0].key != e {
      var after := Upsert(rows, e);
      UpsertUnique(rows[1..], e);
      assert after[1..] == Upsert(rows[1..], e);
      UpsertKey(rows[1..], e, rows[0].key);
      forall j | 0 < j < |after| ensures after[j].key != after[0].key {
        assert after[j] == after[1..][j - 1];
        assert HasKey(after[1..], after[j].key);
      }
      UniqueCons(after);
    }
  }

  lemma UniqueCons(rows: seq<Row>)
    requires rows != [] && UniqueKeys(rows[1..])
    requires forall j | 0 < j < |rows| :: rows[j].key != rows[0].key
    ensures UniqueKeys(rows)
  {
    forall i, j | 0 <= i < j < |rows| ensures rows[i].key != rows[j].key {
      if i > 0 { assert rows[1..][i - 1] == rows[i] && rows[1..][j - 1] == rows[j]; }
    }
  }

  /** Where the upsert lands: at the first row with the key, or at the end. */
  lemma {:induction false} UpsertAt(rows: seq<Row>, i: nat, e: Event)
    requires i <= |rows| && forall j | 0 <= j < i :: rows[j].key != e
    requires i < |rows| ==> rows[i].key == e
    ensures Upsert(rows, e) == if i == |rows| then rows + [Row(e, 1)] else rows[i := Row(e, rows[i].count + 1)]
  {
    if i > 0 {
      UpsertAt(rows[1..], i - 1, e);
    }
  }

  /** Main result: the table has one row a key, a row for each logged key, and every SUM over
      it is the number of logged events it is meant to count. */
  lemma {:induction false} TableRefinesLog(log: seq<Event>, p: Event -> bool)
    ensures UniqueKeys(Table(log))
    ensures forall k :: HasKey(Table(log), k) <==> k in log
    ensures SumWhere(Table(log), p) == Logged(log, p)
  {
    if log != [] {
      var rest, last := log[..|log| - 1], log[|log| - 1];
      TableRefinesLog(rest, p);
      UpsertUnique(Table(rest), last);
      forall k ensures HasKey(Table(log), k) <==> k in log {
        UpsertKey(Table(rest), last, k);
        assert k in log <==> k in rest || k == last;
      }
      UpsertSum(Table(rest), last, p);
      assert log == rest + [last];
    }
  }

  lemma TableGrows(log: seq<Event>, e: Event)
    ensures Table(log + [e]) == Upsert(Table(log), e)
  {
    assert (log + [e])[..|log|] == log;
  }

  class Stats {
    var rows: seq<Row>
    /** Every event that reached the database. */
    ghost var log: seq<Event>

    ghost predicate Valid()
      reads this
    {
      rows == Table(log) && UniqueKeys(rows)
    }

    constructor ()
      ensures Valid() && log == []
    {
      rows, log := [], [];
    }

    /** A failed statement is logged and dropped; the table stays as it is. */
    method RecordEvent(date: string, user: string, name: string, fails: bool)
      requires Valid()
      modifies this
      ensures Valid() && log == if fails then old(log) else old(log) + [Event(date, user, name)]
    {
      if fails {
        return;
      }
      hide Upsert, Table, UniqueKeys;
      var e := Event(date, user, name);
      var i := Find(rows, e);
      UpsertAt(rows, i, e);
      UpsertUnique(rows, e);
      TableGrows(log, e);
      rows := if i == |rows| then rows + [Row(e, 1)] else rows[i := Row(e, rows[i].count + 1)];
      log := log + [e];
    }

    /** Looks for the row the unique index would find. */
    static method Find(rows: seq<Row>, e: Event) returns (i: nat)
      ensures i <= |rows| && (forall j | 0 <= j < i :: rows[j].key != e) && (i < |rows| ==> rows[i].key == e)
    {
      i := 0;
      while i < |rows| && rows[i].key != e
        invariant i <= |rows| && forall j | 0 <= j < i :: rows[j].key != e
      {
        i := i + 1;
      }
    }
  }

  datatype Daily = Daily(date: string, users: nat, single: nat, sets: nat, info: nat)

  function On(date: string, name: string): Event -> bool {
    (e: Event) => e.date == date && e.name == name
  }

  function UsersOn(rows: seq<Row>, date: string): set<string> {
    set r | r in rows && r.key.date == date :: r.key.user
  }

  function DailyOf(rows: seq<Row>, date: string): Daily {
    Daily(date, |UsersOn(rows, date)|, SumWhere(rows, On(date, DOWNLOAD_SINGLE)),
          SumWhere(rows, On(date, DOWNLOAD_SET)), SumWhere(rows, On(date, INFO)))
  }

  function InsertDesc(dates: seq<string>, d: string): seq<string> {
    if dates == [] then [d]
    else if dates[0] == d then dates
    else if TextLe(dates[0], d) then [d] + dates
    else [dates[0]] + InsertDesc(dates[1..], d)
  }

  /** GROUP BY date, ORDER BY date DESC, of the rows with date >= since. */
  function DatesDesc(rows: seq<Row>, since: string): seq<string> {
    if rows == [] then []
    else
      var rest := DatesDesc(rows[1..], since);
      if TextLe(since, rows[0].key.date) then InsertDesc(rest, rows[0].key.date) else rest
  }

  /** The rows of the answer, one a date. */
  function Report(rows: seq<Row>, dates: seq<string>): (days: seq<Daily>)
    ensures |days| == |dates|
  {
    seq(|dates|, i requires 0 <= i < |dates| => DailyOf(rows, dates[i]))
  }

  function QueryDaily(rows: seq<Row>, since: string): (days: seq<Daily>)
    ensures |days| == |DatesDesc(rows, since)|
  {
    Report(rows, DatesDesc(rows, since))
  }

  function IsDownload(): Event -> bool {
    (e: Event) => e.name == DOWNLOAD_SINGLE || e.name == DOWNLOAD_SET
  }

  function TotalDownloads(rows: seq<Row>): nat {
    SumWhere(rows, IsDownload())
  }

  function TotalUsers(rows: seq<Row>): nat {
    |set r | r in rows :: r.key.user|
  }

  predicate StrictlyDesc(dates: seq<string>) {
    forall i, j | 0 <= i < j < |dates| :: dates[i] != dates[j] && TextLe(dates[j], dates[i])
  }

  lemma {:induction false} TextLeTotal(a: string, b: string)
    ensures TextLe(a, b) || TextLe(b, a)
  {
    if a != "" && b != "" { TextLeTotal(a[1..], b[1..]); }
  }

  lemma {:induction false} TextLeTransitive(a: string, b: string, c: string)
    requires TextLe(a, b) && TextLe(b, c)
    ensures TextLe(a, c)
  {
    if a != "" && a[0] == b[0] == c[0] { TextLeTransitive(a[1..], b[1..], c[1..]); }
  }

  lemma DescCons(d: string, rest: seq<string>)
    requires StrictlyDesc(rest) && forall x <- rest :: x != d && TextLe(x, d)
    ensures StrictlyDesc([d] + rest)
  {
    var all := [d] + rest;
    forall i, j | 0 <= i < j < |all| ensures all[i] != all[j] && TextLe(all[j], all[i]) {
      assert all[j] == rest[j - 1] && rest[j - 1] in rest;
      if i > 0 { assert all[i] == rest[i - 1]; }
    }
  }

  lemma DescHead(dates: seq<string>)
    requires dates != [] && StrictlyDesc(dates)
    ensures forall x <- dates[1..] :: x != dates[0] && TextLe(x, dates[0])
  {}

  lemma {:induction false} InsertSorted(dates: seq<string>, d: string)
    requires StrictlyDesc(dates)
    ensures StrictlyDesc(InsertDesc(dates, d))
    ensures forall x :: x in InsertDesc(dates, d) <==> x == d || x in dates
  {
    if dates != [] && dates[0] != d {
      var first, rest := dates[0], dates[1..];
      DescHead(dates);
      assert dates == [first] + rest;
      if TextLe(first, d) {
        forall x | x in dates ensures x != d && TextLe(x, d) {
          if x != first { TextLeTransitive(x, first, d); }
          if x == d { TextLeAntisymmetric(first, d); }
        }
        DescCons(d, dates);
      } else {
        TextLeTotal(first, d);
        InsertSorted(rest, d);
        DescCons(first, InsertDesc(rest, d));
      }
    }
  }

  lemma {:induction false} TextLeAntisymmetric(a: string, b: string)
    requires TextLe(a, b) && TextLe(b, a)
    ensures a == b
  {
    if a != "" {
      TextLeAntisymmetric(a[1..], b[1..]);
      assert a == [a[0]] + a[1..] && b == [b[0]] + b[1..];
    }
  }

  /** The query lists each date of the table from `since` on once, newest first. */
  lemma {:induction false} DatesListed(rows: seq<Row>, since: string)
    ensures StrictlyDesc(DatesDesc(rows, since))
    ensures forall d :: d in DatesDesc(rows, since) <==> TextLe(since, d) && exists r <- rows :: r.key.date == d
  {
    if rows != [] {
      DatesListed(rows[1..], since);
      InsertSorted(DatesDesc(rows[1..], since), rows[0].key.date);
      assert rows == [rows[0]] + rows[1..];
    }
  }

  function UsersLogged(log: seq<Event>, date: string): set<string> {
    set e | e in log && e.date == date :: e.user
  }

  lemma UsersMatch(log: seq<Event>, date: string)
    ensures UsersOn(Table(log), date) == UsersLogged(log, date)
  {
    TableRefinesLog(log, IsDownload());
    var rows := Table(log);
    forall u ensures u in UsersOn(rows, date) <==> u in UsersLogged(log, date) {
      if u in UsersOn(rows, date) {
        var r :| r in rows && r.key.date == date && r.key.user == u;
        assert HasKey(rows, r.key);
      }
      if u in UsersLogged(log, date) {
        var e :| e in log && e.date == date && e.user == u;
        assert HasKey(rows, e);
      }
    }
  }

  /** The positions of the events that satisfy `p`. */
  function Places(log: seq<Event>, p: Event -> bool): set<int> {
    set i | 0 <= i < |log| && p(log[i])
  }

  lemma PlacesMore(log: seq<Event>, p: Event -> bool)
    requires log != []
    ensures var n := |log| - 1;
      && n !in Places(log[..n], p)
      && Places(log, p) == if p(log[n]) then Places(log[..n], p) + {n} else Places(log[..n], p)
  {
    var n := |log| - 1;
    forall i ensures i in Places(log, p) <==> i in Places(log[..n], p) || (i == n && p(log[n])) {
      if 0 <= i < n { assert log[..n][i] == log[i]; }
    }
  }

  /** The events of a log that satisfy `p` are as many as the positions they stand at. */
  lemma {:induction false} LoggedIs(log: seq<Event>, p: Event -> bool)
    ensures Logged(log, p) == |Places(log, p)|
  {
    if log != [] {
      hide Places;
      LoggedIs(log[..|log| - 1], p);
      PlacesMore(log, p);
    } else {
      assert Places(log, p) == {};
    }
  }

  /** A SUM over the table counts the positions in the log it is meant to count. */
  lemma SumIs(log: seq<Event>, p: Event -> bool, places: set<int>)
    requires forall i :: i in places <==> 0 <= i < |log| && p(log[i])
    ensures SumWhere(Table(log), p) == |places|
  {
    TableRefinesLog(log, p);
    LoggedIs(log, p);
    assert places == Places(log, p);
  }

  predicate LoggedOn(log: seq<Event>, date: string) {
    exists e <- log :: e.date == date
  }

  /** Main result: the daily query reports each logged date from `since` on once, newest first,
      with the distinct users and the events of that date as the log has them. */
  lemma DailyMatchesLog(log: seq<Event>, since: string, i: nat)
    requires i < |QueryDaily(Table(log), since)|
    ensures StrictlyDesc(DatesDesc(Table(log), since))
    ensures forall d :: d in DatesDesc(Table(log), since) <==> TextLe(since, d) && LoggedOn(log, d)
    ensures var day := QueryDaily(Table(log), since)[i];
      && day.date == DatesDesc(Table(log), since)[i]
      && day.users == |set e | e in log && e.date == day.date :: e.user|
      && day.single == |set i | 0 <= i < |log| && log[i].date == day.date && log[i].name == "download_single"|
      && day.sets == |set i | 0 <= i < |log| && log[i].date == day.date && log[i].name == "download_set"|
      && day.info == |set i | 0 <= i < |log| && log[i].date == day.date && log[i].name == "info"|
  {
    hide Table, DatesDesc, LoggedOn, TextLe, DailyOf, StrictlyDesc;
    forall d ensures d in DatesDesc(Table(log), since) <==> TextLe(since, d) && LoggedOn(log, d) {
      ListedIffLogged(log, since, d);
    }
    ListedIffLogged(log, since, since);
    DayMatchesLog(log, DatesDesc(Table(log), since)[i]);
  }

  lemma DayMatchesLog(log: seq<Event>, date: string)
    ensures var day := DailyOf(Table(log), date);
      && day.date == date
      && day.users == |set e | e in log && e.date == day.date :: e.user|
      && day.single == |set i | 0 <= i < |log| && log[i].date == day.date && log[i].name == "download_single"|
      && day.sets == |set i | 0 <= i < |log| && log[i].date == day.date && log[i].name == "download_set"|
      && day.info == |set i | 0 <= i < |log| && log[i].date == day.date && log[i].name == "info"|
  {
    hide Table;
    UsersMatch(log, date);
    SumIs(log, On(date, DOWNLOAD_SINGLE),
          set i | 0 <= i < |log| && log[i].date == date && log[i].name == "download_single");
    SumIs(log, On(date, DOWNLOAD_SET), set i | 0 <= i < |log| && log[i].date == date && log[i].name == "download_set");
    SumIs(log, On(date, INFO), set i | 0 <= i < |log| && log[i].date == date && log[i].name == "info");
  }

  lemma ListedIffLogged(log: seq<Event>, since: string, d: string)
    ensures StrictlyDesc(DatesDesc(Table(log), since))
    ensures d in DatesDesc(Table(log), since) <==> TextLe(since, d) && LoggedOn(log, d)
  {
    var rows := Table(log);
    TableRefinesLog(log, IsDownload());
    DatesListed(rows, since);
    if LoggedOn(log, d) {
      var e :| e in log && e.date == d;
      assert HasKey(rows, e);
    }
    if r :| r in rows && r.key.date == d {
      assert HasKey(rows, r.key);
    }
  }

  /** Downloads and users added up over the reported days. */
  function SumDownloads(days: seq<Daily>): nat {
    if days == [] then 0 else days[0].single + days[0].sets + SumDownloads(days[1..])
  }

  function SumUsers(days: seq<Daily>): nat {
    if days == [] then 0 else days[0].users + SumUsers(days[1..])
  }

  function DownloadIn(dates: seq<string>): Event -> bool {
    (e: Event) => e.date in dates && IsDownload()(e)
  }

  lemma {:induction false} SumOfDisjoint(rows: seq<Row>, p: Event -> bool, q: Event -> bool, all: Event -> bool)
    requires forall e :: (all(e) <==> p(e) || q(e)) && !(p(e) && q(e))
    ensures SumWhere(rows, all) == SumWhere(rows, p) + SumWhere(rows, q)
  {
    if rows != [] { SumOfDisjoint(rows[1..], p, q, all); }
  }

  lemma {:induction false} SumOfSame(rows: seq<Row>, p: Event -> bool, q: Event -> bool)
    requires forall r <- rows :: p(r.key) == q(r.key)
    ensures SumWhere(rows, p) == SumWhere(rows, q)
  {
    if rows != [] { SumOfSame(rows[1..], p, q); }
  }

  lemma {:induction false} ReportAddsUp(rows: seq<Row>, dates: seq<string>)
    requires StrictlyDesc(dates)
    ensures SumDownloads(Report(rows, dates)) == SumWhere(rows, DownloadIn(dates))
  {
    if dates == [] {
      SumNever(rows);
    } else {
      var d, rest := dates[0], dates[1..];
      assert Report(rows, dates)[1..] == Report(rows, rest);
      ReportAddsUp(rows, rest);
      assert dates == [d] + rest && d !in rest;
      assert |DOWNLOAD_SINGLE| != |DOWNLOAD_SET|;
      forall e ensures DownloadIn([d])(e) <==> On(d, DOWNLOAD_SINGLE)(e) || On(d, DOWNLOAD_SET)(e) {
        assert DownloadIn([d])(e) <==> e.date == d && IsDownload()(e);
        assert On(d, DOWNLOAD_SINGLE)(e) <==> e.date == d && e.name == DOWNLOAD_SINGLE;
      }
      SumOfDisjoint(rows, On(d, DOWNLOAD_SINGLE), On(d, DOWNLOAD_SET), DownloadIn([d]));
      SumOfDisjoint(rows, DownloadIn([d]), DownloadIn(rest), DownloadIn(dates));
    }
  }

  lemma {:induction false} SumNever(rows: seq<Row>)
    ensures SumWhere(rows, DownloadIn([])) == 0
  {
    if rows != [] { SumNever(rows[1..]); }
  }

  /** Main result: the all-time downloads are the daily downloads of every date added up. */
  lemma DownloadsAddUp(rows: seq<Row>)
    ensures TotalDownloads(rows) == SumDownloads(QueryDaily(rows, ""))
  {
    var dates := DatesDesc(rows, "");
    DatesListed(rows, "");
    ReportAddsUp(rows, dates);
    forall r | r in rows ensures DownloadIn(dates)(r.key) == IsDownload()(r.key) {
      assert r.key.date in dates;
    }
    SumOfSame(rows, DownloadIn(dates), IsDownload());
  }

  /** Main result: the all-time totals are the distinct users and the downloads of the log. */
  lemma TotalsMatchLog(log: seq<Event>)
    ensures TotalUsers(Table(log)) == |set e | e in log :: e.user|
    ensures TotalDownloads(Table(log))
      == |set i | 0 <= i < |log| && (log[i].name == "download_single" || log[i].name == "download_set")|
  {
    var rows := Table(log);
    SumIs(log, IsDownload(),
          set i | 0 <= i < |log| && (log[i].name == "download_single" || log[i].name == "download_set"));
    TableRefinesLog(log, IsDownload());
    var seen, logged := set r | r in rows :: r.key.user, set e | e in log :: e.user;
    forall u ensures u in seen <==> u in logged {
      if u in seen {
        var r :| r in rows && r.key.user == u;
        assert HasKey(rows, r.key);
      }
      if u in logged {
        var e :| e in log && e.user == u;
        assert HasKey(rows, e);
      }
    }
    assert seen == logged;
  }

  function UsersIn(rows: seq<Row>, dates: seq<string>): set<string> {
    set r | r in rows && r.key.date in dates :: r.key.user
  }

  /** No user was seen on two of these dates. */
  predicate OneDayEach(rows: seq<Row>, dates: seq<string>) {
    forall i, j | 0 <= i < j < |dates| :: UsersOn(rows, dates[i]) !! UsersOn(rows, dates[j])
  }

  lemma UnionSize(a: set<string>, b: set<string>)
    ensures |a + b| == |a| + |b| - |a * b|
    ensures a !! b <==> |a * b| == 0
  {}

  lemma OneDayCons(rows: seq<Row>, dates: seq<string>)
    requires dates != []
    ensures OneDayEach(rows, dates) <==>
      OneDayEach(rows, dates[1..]) && UsersOn(rows, dates[0]) !! UsersIn(rows, dates[1..])
  {
    var rest, first := dates[1..], UsersOn(rows, dates[0]);
    if OneDayEach(rows, dates) {
      forall u | u in UsersIn(rows, rest) ensures u !in first {
        var r :| r in rows && r.key.date in rest && r.key.user == u;
        var j :| 0 <= j < |rest| && rest[j] == r.key.date;
        assert u in UsersOn(rows, dates[j + 1]) && first !! UsersOn(rows, dates[j + 1]);
      }
      forall i, j | 0 <= i < j < |rest| ensures UsersOn(rows, rest[i]) !! UsersOn(rows, rest[j]) {
        assert UsersOn(rows, dates[i + 1]) !! UsersOn(rows, dates[j + 1]);
      }
    } else {
      var i, j :| 0 <= i < j < |dates| && !(UsersOn(rows, dates[i]) !! UsersOn(rows, dates[j]));
      if i > 0 {
        assert dates[i] == rest[i - 1] && dates[j] == rest[j - 1];
      } else {
        assert dates[j] == rest[j - 1] && UsersOn(rows, rest[j - 1]) <= UsersIn(rows, rest);
      }
    }
  }

  lemma {:induction false} UsersSubadditive(rows: seq<Row>, dates: seq<string>)
    ensures |UsersIn(rows, dates)| <= SumUsers(Report(rows, dates))
    ensures |UsersIn(rows, dates)| == SumUsers(Report(rows, dates)) <==> OneDayEach(rows, dates)
  {
    if dates != [] {
      var d, rest := dates[0], dates[1..];
      assert Report(rows, dates)[1..] == Report(rows, rest);
      UsersSubadditive(rows, rest);
      assert dates == [d] + rest;
      assert UsersIn(rows, dates) == UsersOn(rows, d) + UsersIn(rows, rest);
      UnionSize(UsersOn(rows, d), UsersIn(rows, rest));
      OneDayCons(rows, dates);
    }
  }

  /** Main result: distinct users never exceed the daily users added up, and reach that sum
      exactly when no user came back on another day. */
  lemma UsersAtMostDaily(rows: seq<Row>)
    ensures TotalUsers(rows) <= SumUsers(QueryDaily(rows, ""))
    ensures TotalUsers(rows) == SumUsers(QueryDaily(rows, "")) <==> OneDayEach(rows, DatesDesc(rows, ""))
  {
    var dates := DatesDesc(rows, "");
    DatesListed(rows, "");
    UsersSubadditive(rows, dates);
    assert forall r <- rows :: r.key.date in dates;
    assert UsersIn(rows, dates) == set r | r in rows :: r.key.user;
  }

  /** Main result: of the dates up to today, a query for `n` days is right about `d`, reporting
      it if it is logged and among today and the n days before it, if and only if `d` is not
      logged or its year compares as text with that of the first day asked for. */
  lemma QueryKeepsDaysIff(log: seq<Event>, today: Date, n: nat, d: Date)
    requires Dates.Valid(today) && Reaches(today, n)
    requires Dates.Valid(d) && !Before(today, d)
    ensures (DateText(d) in DatesDesc(Table(log), DateText(DaysBack(today, n))) <==>
             LoggedOn(log, DateText(d)) && exists k: nat :: k <= n && d == DaysBack(today, k))
      <==> !LoggedOn(log, DateText(d)) || Comparable(DaysBack(today, n).year, d.year)
  {
    hide DateText, TextLe, Table, DatesDesc, Comparable;
    var since := DaysBack(today, n);
    BackStep(today, n);
    ListedIffLogged(log, DateText(since), DateText(d));
    TextOrderIff(since, d);
    FilterKeepsDays(today, n, d);
  }

  /** Where the query goes wrong: on the first day of the year 10000 it asks for two days and does
      not report the day itself. */
  lemma TurnOfTheMillennium(user: string)
    ensures var today := Date(10000, 1, 1); var log := [Event(DateText(today), user, INFO)];
      && Dates.Valid(today) && LoggedOn(log, DateText(today))
      && DateText(today) !in DatesDesc(Table(log), DateText(DaysBack(today, 1)))
  {
    hide DateText, TextLe, Table, DatesDesc, Comparable;
    var today := Date(10000, 1, 1);
    var log := [Event(DateText(today), user, INFO)];
    assert DayBefore(DaysBack(today, 0)) != DaysBack(today, 0);
    assert DaysBack(today, 0) == today && DaysBack(today, 1) == Date(9999, 12, 31);
    assert log[0] in log;
    LongYears();
    QueryKeepsDaysIff(log, today, 1, today);
  }

  /** Before the year 10000 the query is always right: it reports exactly the logged dates among
      today and the n days before it. */
  lemma QueryKeepsDays(log: seq<Event>, today: Date, n: nat, d: Date)
    requires Dates.Valid(today) && today.year < 10000 && Reaches(today, n)
    requires Dates.Valid(d) && !Before(today, d)
    ensures DateText(d) in DatesDesc(Table(log), DateText(DaysBack(today, n))) <==>
      LoggedOn(log, DateText(d)) && exists k: nat :: k <= n && d == DaysBack(today, k)
  {
    hide DateText, TextLe, Table, DatesDesc;
    BackStep(today, n);
    QueryKeepsDaysIff(log, today, n, d);
  }

  /** The same by the calendar: before the year 10000 a query for `n` days reports, of the dates up
      to today, exactly the logged ones at most `n` days back. */
  lemma {:induction false} QueryKeepsNumbers(log: seq<Event>, today: Date, n: nat, d: Date)
    requires Dates.Valid(today) && today.year < 10000 && DayNumber(FIRST) + n <= DayNumber(today)
    requires Dates.Valid(d) && DayNumber(d) <= DayNumber(today)
    ensures DateText(d) in DatesDesc(Table(log), DateText(DaysBack(today, n))) <==>
      LoggedOn(log, DateText(d)) && DayNumber(today) - DayNumber(d) <= n
  {
    hide DateText, TextLe, Table, DatesDesc, DayNumber;
    NumberOrderIff(today, d);
    DaysBackNumber(today, n);
    FilterKeepsNumbers(today, n, d);
    FilterKeepsDays(today, n, d);
    QueryKeepsDays(log, today, n, d);
  }

  /** Of two reported dates the one listed first is the newer if and only if their years compare. */
  lemma {:induction false} NewestFirstIff(log: seq<Event>, since: string, i: nat, j: nat, a: Date, b: Date)
    requires i < j < |DatesDesc(Table(log), since)| && Dates.Valid(a) && Dates.Valid(b)
    requires DatesDesc(Table(log), since)[i] == DateText(a) && DatesDesc(Table(log), since)[j] == DateText(b)
    ensures Before(b, a) <==> Comparable(a.year, b.year)
  {
    hide DateText, TextLe, Table, DatesDesc;
    ListedIffLogged(log, since, DateText(a));
    TextOrderIff(b, a);
  }
}

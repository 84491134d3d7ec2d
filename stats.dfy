/**
 * write_stats_sheet: one pass over the ledger rows counts bans per day and
 * source sub, per sub over the last week, and per moderator; the counts are
 * then laid out as a three-section table.
 */
module Stats {
  import opened Wrappers
  import opened Text
  import opened Counter
  import opened Sorting
  import opened Ledger

  /**
   * The clock and the timestamp parser: parseDay stands for
   * strptime(ts, "%Y-%m-%d %H:%M:%S").date() as a day number (None when it
   * raises), today for utcnow().date().
   */
  datatype Clock = Clock(parseDay: string -> Option<int>, today: int)

  /** The three dicts the loop fills: daily maps a day to a per-sub counter. */
  datatype Aggregates = Aggregates(daily: seq<(int, Counts<string>)>, weekly: Counts<string>, mods: Counts<string>)

  /** `s.strip() or "unknown"`: the key is never blank and has no surrounding whitespace. */
  function OrUnknown(s: string): (r: string)
    ensures r != [] && !IsSpace(r[0]) && !IsSpace(r[|r| - 1])
    ensures Strip(s) != "" ==> r == Strip(s)
    ensures Strip(s) == "" ==> r == "unknown"
  {
    StripShape(s);
    if Strip(s) == "" then "unknown" else Strip(s)
  }

  function SubKey(row: Row): string { OrUnknown(row.sourceSub) }

  function ActorKey(row: Row): string { OrUnknown(row.mod) }

  /** A moderator is credited unless the actor is "" or "unknown", case-insensitively. */
  predicate Credited(actor: string) {
    Lower(actor) != "" && Lower(actor) != "unknown"
  }

  predicate Parsed(row: Row, clock: Clock) {
    clock.parseDay(row.timestamp).Some?
  }

  predicate InWeek(day: int, clock: Clock) {
    day >= clock.today - 7
  }

  /** daily.setdefault(day, {}).setdefault(src, 0); daily[day][src] += 1 */
  function BumpDaily(d: seq<(int, Counts<string>)>, day: int, src: string): seq<(int, Counts<string>)> {
    if d == [] then [(day, Bump([], src))]
    else if d[0].0 == day then [(day, Bump(d[0].1, src))] + d[1..]
    else [d[0]] + BumpDaily(d[1..], day, src)
  }

  function DayOf(row: Row, clock: Clock): int
    requires Parsed(row, clock)
  {
    clock.parseDay(row.timestamp).value
  }

  /** The row counts towards the weekly dict. */
  predicate WeekRow(row: Row, clock: Clock) {
    Parsed(row, clock) && InWeek(DayOf(row, clock), clock)
  }

  /** The row counts towards the moderator dict. */
  predicate ModRow(row: Row, clock: Clock) {
    Parsed(row, clock) && Credited(ActorKey(row))
  }

  /** What one iteration of the counting loop does with one row. */
  function Record(agg: Aggregates, row: Row, clock: Clock): Aggregates {
    if !Parsed(row, clock) then agg
    else
      Aggregates(
        BumpDaily(agg.daily, DayOf(row, clock), SubKey(row)),
        if WeekRow(row, clock) then Bump(agg.weekly, SubKey(row)) else agg.weekly,
        if ModRow(row, clock) then Bump(agg.mods, ActorKey(row)) else agg.mods)
  }

  /** The three dicts after the loop has seen the rows. */
  function Tally(rows: seq<Row>, clock: Clock): Aggregates {
    if rows == [] then Aggregates([], [], [])
    else Record(Tally(rows[..|rows| - 1], clock), rows[|rows| - 1], clock)
  }

  /** The counting loop of write_stats_sheet. */
  method CountBans(rows: seq<Row>, clock: Clock) returns (agg: Aggregates)
    ensures agg == Tally(rows, clock)
  {
    var daily: seq<(int, Counts<string>)> := [];
    var weekly: Counts<string> := [];
    var mods: Counts<string> := [];
    for i := 0 to |rows|
      invariant Aggregates(daily, weekly, mods) == Tally(rows[..i], clock)
    {
      assert rows[..i + 1][..i] == rows[..i];
      var ts := clock.parseDay(rows[i].timestamp);
      if ts.None? {
        continue;
      }
      var day := ts.value;
      var src := SubKey(rows[i]);
      var actor := ActorKey(rows[i]);
      daily := BumpDaily(daily, day, src);
      if InWeek(day, clock) {
        weekly := Bump(weekly, src);
      }
      if Credited(actor) {
        mods := Bump(mods, actor);
      }
    }
    assert rows[..|rows|] == rows;
    agg := Aggregates(daily, weekly, mods);
  }

  // ---- What the counts mean, stated on the rows directly ----

  /** The rows whose Timestamp parses, in order. */
  function Parsable(rows: seq<Row>, clock: Clock): seq<Row> {
    if rows == [] then []
    else Parsable(rows[..|rows| - 1], clock) + (if Parsed(rows[|rows| - 1], clock) then [rows[|rows| - 1]] else [])
  }

  /** The sub keys of the parsable rows dated within the last week. */
  function WeekKeys(rows: seq<Row>, clock: Clock): seq<string> {
    if rows == [] then []
    else
      var r := rows[|rows| - 1];
      WeekKeys(rows[..|rows| - 1], clock)
        + (if WeekRow(r, clock) then [SubKey(r)] else [])
  }

  /** The sub keys of all parsable rows. */
  function SubKeys(rows: seq<Row>, clock: Clock): seq<string> {
    if rows == [] then []
    else
      var r := rows[|rows| - 1];
      SubKeys(rows[..|rows| - 1], clock) + (if Parsed(r, clock) then [SubKey(r)] else [])
  }

  /** The sub keys of the parsable rows dated on one day. */
  function SubsOn(rows: seq<Row>, clock: Clock, day: int): seq<string> {
    if rows == [] then []
    else
      var r := rows[|rows| - 1];
      SubsOn(rows[..|rows| - 1], clock, day) + (if Parsed(r, clock) && DayOf(r, clock) == day then [SubKey(r)] else [])
  }

  /** The days of the parsable rows, in row order. */
  function ParsedDays(rows: seq<Row>, clock: Clock): seq<int> {
    if rows == [] then []
    else
      var r := rows[|rows| - 1];
      ParsedDays(rows[..|rows| - 1], clock) + (if Parsed(r, clock) then [DayOf(r, clock)] else [])
  }

  /** The credited moderator keys of the parsable rows. */
  function ModKeys(rows: seq<Row>, clock: Clock): seq<string> {
    if rows == [] then []
    else
      var r := rows[|rows| - 1];
      ModKeys(rows[..|rows| - 1], clock) + (if ModRow(r, clock) then [ActorKey(r)] else [])
  }

  /** daily.get(day, {}) */
  function DayCounts(d: seq<(int, Counts<string>)>, day: int): Counts<string> {
    if d == [] then [] else if d[0].0 == day then d[0].1 else DayCounts(d[1..], day)
  }

  function DayKeys(d: seq<(int, Counts<string>)>): seq<int> {
    seq(|d|, i requires 0 <= i < |d| => d[i].0)
  }

  /** The sum of all (day, sub) counts. */
  function DailyTotal(d: seq<(int, Counts<string>)>): int {
    if d == [] then 0 else Total(d[0].1) + DailyTotal(d[1..])
  }

  /** The sum over all days of one sub's count. */
  function SubTotal(d: seq<(int, Counts<string>)>, src: string): int {
    if d == [] then 0 else Get(d[0].1, src) + SubTotal(d[1..], src)
  }

  lemma {:induction false} DayCountsBumpDaily(d: seq<(int, Counts<string>)>, day: int, src: string, x: int)
    ensures DayCounts(BumpDaily(d, day, src), x) == if x == day then Bump(DayCounts(d, day), src) else DayCounts(d, x)
  {
    if d != [] && d[0].0 != day {
      DayCountsBumpDaily(d[1..], day, src, x);
    }
  }

  lemma {:induction false} DayKeysBumpDaily(d: seq<(int, Counts<string>)>, day: int, src: string)
    ensures DayKeys(BumpDaily(d, day, src)) == if day in DayKeys(d) then DayKeys(d) else DayKeys(d) + [day]
  {
    if d != [] {
      assert DayKeys(d) == [d[0].0] + DayKeys(d[1..]);
      if d[0].0 != day {
        DayKeysBumpDaily(d[1..], day, src);
        assert DayKeys(BumpDaily(d, day, src)) == [d[0].0] + DayKeys(BumpDaily(d[1..], day, src));
      } else {
        assert DayKeys(BumpDaily(d, day, src)) == [day] + DayKeys(d[1..]);
      }
    }
  }

  lemma {:induction false} TotalsBumpDaily(d: seq<(int, Counts<string>)>, day: int, src: string, s: string)
    ensures DailyTotal(BumpDaily(d, day, src)) == DailyTotal(d) + 1
    ensures SubTotal(BumpDaily(d, day, src), s) == SubTotal(d, s) + (if s == src then 1 else 0)
  {
    if d == [] {
      TotalBump([], src);
      GetBump([], src, s);
    } else if d[0].0 == day {
      TotalBump(d[0].1, src);
      GetBump(d[0].1, src, s);
    } else {
      TotalsBumpDaily(d[1..], day, src, s);
    }
  }

  /** One day's counter counts the sub keys of that day's rows. */
  lemma {:induction false} TallyDay(rows: seq<Row>, clock: Clock, x: int)
    ensures DayCounts(Tally(rows, clock).daily, x) == CountAll(SubsOn(rows, clock, x))
  {
    if rows != [] {
      var init := rows[..|rows| - 1];
      var r := rows[|rows| - 1];
      TallyDay(init, clock, x);
      assert Tally(rows, clock) == Record(Tally(init, clock), r, clock);
      var sx := SubsOn(init, clock, x);
      if Parsed(r, clock) && DayOf(r, clock) == x {
        DayCountsBumpDaily(Tally(init, clock).daily, x, SubKey(r), x);
        assert (sx + [SubKey(r)])[..|sx|] == sx;
      } else {
        assert SubsOn(rows, clock, x) == sx;
        if Parsed(r, clock) {
          DayCountsBumpDaily(Tally(init, clock).daily, DayOf(r, clock), SubKey(r), x);
        }
      }
    }
  }

  /** The daily dict holds one entry per parsed day, in order of first appearance. */
  lemma {:induction false} TallyDays(rows: seq<Row>, clock: Clock)
    ensures DayKeys(Tally(rows, clock).daily) == FirstSeen(ParsedDays(rows, clock))
  {
    if rows != [] {
      var init := rows[..|rows| - 1];
      var r := rows[|rows| - 1];
      TallyDays(init, clock);
      assert Tally(rows, clock) == Record(Tally(init, clock), r, clock);
      var pd := ParsedDays(init, clock);
      if Parsed(r, clock) {
        var day := DayOf(r, clock);
        DayKeysBumpDaily(Tally(init, clock).daily, day, SubKey(r));
        FirstSeenMembers(pd);
        var pd' := pd + [day];
        assert pd'[..|pd|] == pd;
        assert FirstSeen(pd') == FirstSeen(pd) + (if day in pd then [] else [day]);
      } else {
        assert ParsedDays(rows, clock) == pd;
      }
    }
  }

  /** The daily counts add up to the number of rows whose Timestamp parses. */
  lemma {:induction false} DailySumIsParsable(rows: seq<Row>, clock: Clock)
    ensures DailyTotal(Tally(rows, clock).daily) == |Parsable(rows, clock)|
  {
    if rows != [] {
      var init := rows[..|rows| - 1];
      var r := rows[|rows| - 1];
      DailySumIsParsable(init, clock);
      if Parsed(r, clock) {
        TotalsBumpDaily(Tally(init, clock).daily, DayOf(r, clock), SubKey(r), "");
      }
    }
  }

  /** The weekly dict counts the sub keys of the rows dated on or after today - 7. */
  lemma {:induction false} TallyWeekly(rows: seq<Row>, clock: Clock)
    ensures Tally(rows, clock).weekly == CountAll(WeekKeys(rows, clock))
  {
    if rows != [] {
      var init := rows[..|rows| - 1];
      var r := rows[|rows| - 1];
      TallyWeekly(init, clock);
      var keys := WeekKeys(init, clock);
      assert Tally(rows, clock) == Record(Tally(init, clock), r, clock);
      if WeekRow(r, clock) {
        assert (keys + [SubKey(r)])[..|keys|] == keys;
      } else {
        assert WeekKeys(rows, clock) == keys;
      }
    }
  }

  /** The moderator dict counts the credited moderators of the parsable rows. */
  lemma {:induction false} TallyMods(rows: seq<Row>, clock: Clock)
    ensures Tally(rows, clock).mods == CountAll(ModKeys(rows, clock))
  {
    if rows != [] {
      var init := rows[..|rows| - 1];
      var r := rows[|rows| - 1];
      TallyMods(init, clock);
      var keys := ModKeys(init, clock);
      assert Tally(rows, clock) == Record(Tally(init, clock), r, clock);
      if ModRow(r, clock) {
        assert (keys + [ActorKey(r)])[..|keys|] == keys;
      } else {
        assert ModKeys(rows, clock) == keys;
      }
    }
  }

  /** Rows whose Timestamp does not parse contribute to no count. */
  lemma {:induction false} UnparsableIgnored(rows: seq<Row>, clock: Clock)
    ensures Tally(rows, clock) == Tally(Parsable(rows, clock), clock)
  {
    if rows != [] {
      var init := rows[..|rows| - 1];
      var r := rows[|rows| - 1];
      UnparsableIgnored(init, clock);
      var q := Parsable(init, clock);
      if Parsed(r, clock) {
        var p := q + [r];
        assert p[..|p| - 1] == q;
        assert Tally(p, clock) == Record(Tally(q, clock), r, clock);
      } else {
        assert Tally(rows, clock) == Record(Tally(init, clock), r, clock);
        assert Parsable(rows, clock) == q;
      }
    }
  }

  /** A sub's weekly count is at most its count summed over all days. */
  lemma {:induction false} WeeklyWithinDaily(rows: seq<Row>, clock: Clock, s: string)
    ensures Get(Tally(rows, clock).weekly, s) <= SubTotal(Tally(rows, clock).daily, s)
  {
    if rows != [] {
      var init := rows[..|rows| - 1];
      var r := rows[|rows| - 1];
      WeeklyWithinDaily(init, clock, s);
      if Parsed(r, clock) {
        var day := DayOf(r, clock);
        TotalsBumpDaily(Tally(init, clock).daily, day, SubKey(r), s);
        GetBump(Tally(init, clock).weekly, SubKey(r), s);
      }
    }
  }

  /** The moderator counts add up to at most the number of parsable rows. */
  lemma {:induction false} ModsWithinParsable(rows: seq<Row>, clock: Clock)
    ensures Total(Tally(rows, clock).mods) <= |Parsable(rows, clock)|
    ensures forall x :: x in Keys(Tally(rows, clock).mods) ==> Credited(x)
  {
    if rows != [] {
      var init := rows[..|rows| - 1];
      var r := rows[|rows| - 1];
      ModsWithinParsable(init, clock);
      var before := Tally(init, clock).mods;
      assert Tally(rows, clock) == Record(Tally(init, clock), r, clock);
      if ModRow(r, clock) {
        assert Tally(rows, clock).mods == Bump(before, ActorKey(r));
        assert |Parsable(rows, clock)| == |Parsable(init, clock)| + 1;
        TotalBump(before, ActorKey(r));
        KeysBump(before, ActorKey(r));
      } else {
        assert Tally(rows, clock).mods == before;
      }
    }
  }

  // ---- The output table ----

  datatype Line =
    | Title(text: string)
    | Blank
    | DayLine(day: int, sub: string, count: int)
    | CountLine(name: string, count: int)

  const DailyTitle: string := "\U{1F4C5} Daily Ban Count"
  const WeeklyTitle: string := "\U{1F4C8} Weekly Bans Per Subreddit"
  const ModsTitle: string := "\U{1F3C6} Top Banning Moderators"

  function DayKey(day: int): int { day }

  function CountKey(p: (string, int)): int { p.1 }

  /** One line per (sub, count) of a day, in the day's insertion order. */
  function ItemLines(day: int, c: Counts<string>): seq<Line> {
    if c == [] then [] else ItemLines(day, c[..|c| - 1]) + [DayLine(day, c[|c| - 1].0, c[|c| - 1].1)]
  }

  /** The daily section for the days in the order given. */
  function DayLines(days: seq<int>, d: seq<(int, Counts<string>)>): seq<Line> {
    if days == [] then [] else DayLines(days[..|days| - 1], d) + ItemLines(days[|days| - 1], DayCounts(d, days[|days| - 1]))
  }

  function CountLines(c: Counts<string>): seq<Line> {
    if c == [] then [] else CountLines(c[..|c| - 1]) + [CountLine(c[|c| - 1].0, c[|c| - 1].1)]
  }

  /** sorted(d.items(), key=lambda x: -x[1]) */
  function Ranked(c: Counts<string>): Counts<string> {
    SortDesc(c, CountKey)
  }

  /** The daily section: days newest first, each day's subs in insertion order. */
  function DaySection(agg: Aggregates): seq<Line> {
    DayLines(SortDesc(DayKeys(agg.daily), DayKey), agg.daily)
  }

  /** The values written to the Stats sheet. */
  function Layout(agg: Aggregates): seq<Line> {
    [Title(DailyTitle)] + DaySection(agg)
      + [Blank, Title(WeeklyTitle)] + CountLines(Ranked(agg.weekly))
      + [Blank, Title(ModsTitle)] + CountLines(Ranked(agg.mods))
  }

  /** The nested loop of the daily section. */
  method DailyLines(agg: Aggregates) returns (lines: seq<Line>)
    ensures lines == DaySection(agg)
  {
    lines := [];
    var days := SortDesc(DayKeys(agg.daily), DayKey);
    for k := 0 to |days|
      invariant lines == DayLines(days[..k], agg.daily)
    {
      assert days[..k + 1][..k] == days[..k];
      var items := DayCounts(agg.daily, days[k]);
      ghost var before := lines;
      for j := 0 to |items|
        invariant lines == before + ItemLines(days[k], items[..j])
      {
        assert items[..j + 1][..j] == items[..j];
        lines := lines + [DayLine(days[k], items[j].0, items[j].1)];
      }
      assert items[..|items|] == items;
    }
    assert days[..|days|] == days;
  }

  /** The loop of the weekly and moderator sections. */
  method RankedLines(c: Counts<string>) returns (lines: seq<Line>)
    ensures lines == CountLines(Ranked(c))
  {
    lines := [];
    var ranked := Ranked(c);
    for j := 0 to |ranked|
      invariant lines == CountLines(ranked[..j])
    {
      assert ranked[..j + 1][..j] == ranked[..j];
      lines := lines + [CountLine(ranked[j].0, ranked[j].1)];
    }
    assert ranked[..|ranked|] == ranked;
  }

  /** The table-building half of write_stats_sheet. */
  method BuildTable(agg: Aggregates) returns (values: seq<Line>)
    ensures values == Layout(agg)
  {
    values := [Title(DailyTitle)];
    var daily := DailyLines(agg);
    values := values + daily;
    values := values + [Blank, Title(WeeklyTitle)];
    var weekly := RankedLines(agg.weekly);
    values := values + weekly;
    values := values + [Blank, Title(ModsTitle)];
    var mods := RankedLines(agg.mods);
    values := values + mods;
  }

  lemma {:induction false} CountLinesAt(c: Counts<string>)
    ensures |CountLines(c)| == |c|
    ensures forall i :: 0 <= i < |c| ==> CountLines(c)[i] == CountLine(c[i].0, c[i].1)
  {
    if c != [] {
      CountLinesAt(c[..|c| - 1]);
    }
  }

  lemma {:induction false} ItemLinesAt(day: int, c: Counts<string>)
    ensures |ItemLines(day, c)| == |c|
    ensures forall i :: 0 <= i < |c| ==> ItemLines(day, c)[i] == DayLine(day, c[i].0, c[i].1)
  {
    if c != [] {
      ItemLinesAt(day, c[..|c| - 1]);
    }
  }

  /**
   * A ranked section lists every key of the dict once with its count, counts
   * never increase down the section, and keys with equal counts keep the
   * dict's order.
   */
  lemma RankedSpec(c: Counts<string>)
    requires Positive(c) && Distinct(Keys(c))
    ensures multiset(Ranked(c)) == multiset(c)
    ensures forall n :: WithKey(Ranked(c), CountKey, n) == WithKey(c, CountKey, n)
    ensures |CountLines(Ranked(c))| == |c|
    ensures forall i :: 0 <= i < |c| ==> var l := CountLines(Ranked(c))[i];
      l.CountLine? && l.count >= 1 && l.count == Get(c, l.name)
    ensures forall i, j :: 0 <= i < j < |c| ==> CountLines(Ranked(c))[i].count >= CountLines(Ranked(c))[j].count
  {
    var r := Ranked(c);
    SortDescSpec(c, CountKey);
    CountLinesAt(r);
    assert |r| == |c| by {
      assert |multiset(r)| == |multiset(c)|;
    }
    forall i | 0 <= i < |c| ensures r[i].1 >= 1 && r[i].1 == Get(c, r[i].0) {
      assert r[i] in multiset(c);
      var k :| 0 <= k < |c| && c[k] == r[i];
      GetAt(c, k);
    }
    forall i, j | 0 <= i < j < |c| ensures CountLines(r)[i].count >= CountLines(r)[j].count {
      assert CountKey(r[i]) >= CountKey(r[j]);
    }
  }

  /** Ranking keeps the keys of a dict distinct. */
  lemma RankedKeysDistinct(c: Counts<string>)
    requires Distinct(Keys(c))
    ensures Distinct(Keys(Ranked(c)))
  {
    var r := Ranked(c);
    SortDescSpec(c, CountKey);
    assert Distinct(c) by {
      assert forall i :: 0 <= i < |c| ==> Keys(c)[i] == c[i].0;
    }
    PermutationDistinct(c, r);
    forall i, j | 0 <= i < j < |r| ensures Keys(r)[i] != Keys(r)[j] {
      assert r[i] in multiset(c) && r[j] in multiset(c);
      var a :| 0 <= a < |c| && c[a] == r[i];
      var b :| 0 <= b < |c| && c[b] == r[j];
      assert a != b;
      assert Keys(c)[a] != Keys(c)[b];
    }
  }

  /** Ranking loses no key of a dict. */
  lemma RankedKeysCover(c: Counts<string>)
    ensures forall k :: k in Keys(c) ==> k in Keys(Ranked(c))
  {
    var r := Ranked(c);
    SortDescSpec(c, CountKey);
    forall k | k in Keys(c) ensures k in Keys(r) {
      var a :| 0 <= a < |c| && Keys(c)[a] == k;
      assert c[a] in multiset(r);
      var i :| 0 <= i < |r| && r[i] == c[a];
      assert Keys(r)[i] == k;
    }
  }

  /** A ranked section names each key of the dict, and names none twice. */
  lemma RankedNames(c: Counts<string>)
    requires Distinct(Keys(c))
    ensures var lines := CountLines(Ranked(c));
      (forall i, j :: 0 <= i < j < |lines| ==> lines[i].CountLine? && lines[j].CountLine? && lines[i].name != lines[j].name)
      && (forall k :: k in Keys(c) ==> exists i :: 0 <= i < |lines| && lines[i].CountLine? && lines[i].name == k)
  {
    var r := Ranked(c);
    RankedKeysDistinct(c);
    RankedKeysCover(c);
    CountLinesAt(r);
    forall i, j | 0 <= i < j < |r| ensures CountLines(r)[i].name != CountLines(r)[j].name {
      assert Keys(r)[i] != Keys(r)[j];
    }
    forall k | k in Keys(c) ensures exists i :: 0 <= i < |r| && CountLines(r)[i].CountLine? && CountLines(r)[i].name == k {
      var i :| 0 <= i < |r| && Keys(r)[i] == k;
      assert CountLines(r)[i].name == k;
    }
  }

  /** The weekly section: each sub of the last week once, with its number of rows from the last week, highest first. */
  lemma WeeklySection(rows: seq<Row>, clock: Clock)
    ensures var lines := CountLines(Ranked(Tally(rows, clock).weekly));
      (forall i :: 0 <= i < |lines| ==>
        lines[i].CountLine? && lines[i].count >= 1 && lines[i].count == multiset(WeekKeys(rows, clock))[lines[i].name])
      && (forall i, j :: 0 <= i < j < |lines| ==> lines[i].count >= lines[j].count)
      && |lines| == |FirstSeen(WeekKeys(rows, clock))|
      && (forall i, j :: 0 <= i < j < |lines| ==> lines[i].CountLine? && lines[j].CountLine? && lines[i].name != lines[j].name)
      && (forall k :: k in WeekKeys(rows, clock) ==> exists i :: 0 <= i < |lines| && lines[i].CountLine? && lines[i].name == k)
  {
    TallyWeekly(rows, clock);
    CountAllSpec(WeekKeys(rows, clock));
    FirstSeenDistinct(WeekKeys(rows, clock));
    FirstSeenMembers(WeekKeys(rows, clock));
    RankedSpec(Tally(rows, clock).weekly);
    RankedNames(Tally(rows, clock).weekly);
  }

  /** The moderator section: each credited moderator once, with their number of rows, highest first. */
  lemma ModsSection(rows: seq<Row>, clock: Clock)
    ensures var lines := CountLines(Ranked(Tally(rows, clock).mods));
      (forall i :: 0 <= i < |lines| ==>
        lines[i].CountLine? && lines[i].count >= 1 && lines[i].count == multiset(ModKeys(rows, clock))[lines[i].name])
      && (forall i, j :: 0 <= i < j < |lines| ==> lines[i].count >= lines[j].count)
      && |lines| == |FirstSeen(ModKeys(rows, clock))|
      && (forall i, j :: 0 <= i < j < |lines| ==> lines[i].CountLine? && lines[j].CountLine? && lines[i].name != lines[j].name)
      && (forall k :: k in ModKeys(rows, clock) ==> exists i :: 0 <= i < |lines| && lines[i].CountLine? && lines[i].name == k)
  {
    TallyMods(rows, clock);
    CountAllSpec(ModKeys(rows, clock));
    FirstSeenDistinct(ModKeys(rows, clock));
    FirstSeenMembers(ModKeys(rows, clock));
    RankedSpec(Tally(rows, clock).mods);
    RankedNames(Tally(rows, clock).mods);
  }

  /** Every day's counter in the dict built from the rows is positive with distinct keys. */
  ghost predicate WellFormedDaily(d: seq<(int, Counts<string>)>) {
    forall x :: Positive(DayCounts(d, x)) && Distinct(Keys(DayCounts(d, x)))
  }

  lemma {:induction false} DayLinesSpec(days: seq<int>, d: seq<(int, Counts<string>)>)
    requires NonIncreasing(days, DayKey) && WellFormedDaily(d)
    ensures forall i :: 0 <= i < |DayLines(days, d)| ==> var l := DayLines(days, d)[i];
      l.DayLine? && l.day in days && l.count >= 1 && l.count == Get(DayCounts(d, l.day), l.sub)
    ensures forall i, j :: 0 <= i < j < |DayLines(days, d)| ==> DayLines(days, d)[i].day >= DayLines(days, d)[j].day
  {
    if days != [] {
      var init := days[..|days| - 1];
      var last := days[|days| - 1];
      assert NonIncreasing(init, DayKey);
      DayLinesSpec(init, d);
      var c := DayCounts(d, last);
      ItemLinesAt(last, c);
      var a := DayLines(init, d);
      var b := ItemLines(last, c);
      assert DayLines(days, d) == a + b;
      forall i | 0 <= i < |b| ensures b[i].count >= 1 && b[i].count == Get(c, b[i].sub) {
        GetAt(c, i);
      }
      forall i | 0 <= i < |a| ensures a[i].day >= last {
        var k :| 0 <= k < |init| && init[k] == a[i].day;
        assert DayKey(days[k]) >= DayKey(days[|days| - 1]);
      }
    }
  }

  /** A day with a nonempty counter is a key of the daily dict. */
  lemma {:induction false} DayCountsKey(d: seq<(int, Counts<string>)>, x: int)
    requires DayCounts(d, x) != []
    ensures x in DayKeys(d)
  {
    assert DayKeys(d) == [d[0].0] + DayKeys(d[1..]);
    if d[0].0 != x {
      DayCountsKey(d[1..], x);
    }
  }

  /** Each (sub, count) of each listed day has its line in the daily section. */
  lemma {:induction false} DayLinesCover(days: seq<int>, d: seq<(int, Counts<string>)>, p: nat, m: nat)
    requires p < |days| && m < |DayCounts(d, days[p])|
    ensures exists i :: (0 <= i < |DayLines(days, d)|
      && DayLines(days, d)[i] == DayLine(days[p], DayCounts(d, days[p])[m].0, DayCounts(d, days[p])[m].1))
  {
    var init := days[..|days| - 1];
    var last := days[|days| - 1];
    var a := DayLines(init, d);
    var b := ItemLines(last, DayCounts(d, last));
    assert DayLines(days, d) == a + b;
    if p == |days| - 1 {
      ItemLinesAt(last, DayCounts(d, last));
      assert DayLines(days, d)[|a| + m] == b[m];
    } else {
      assert init[p] == days[p];
      DayLinesCover(init, d, p, m);
      var i :| 0 <= i < |a| && a[i] == DayLine(days[p], DayCounts(d, days[p])[m].0, DayCounts(d, days[p])[m].1);
      assert DayLines(days, d)[i] == a[i];
    }
  }

  /** With distinct days and distinct subs per day, no (day, sub) pair is listed twice. */
  lemma {:induction false} DayLinesUnique(days: seq<int>, d: seq<(int, Counts<string>)>)
    requires NonIncreasing(days, DayKey) && WellFormedDaily(d) && Distinct(days)
    ensures forall i, j :: 0 <= i < j < |DayLines(days, d)| ==>
      DayLines(days, d)[i].DayLine? && DayLines(days, d)[j].DayLine?
      && (DayLines(days, d)[i].day != DayLines(days, d)[j].day || DayLines(days, d)[i].sub != DayLines(days, d)[j].sub)
  {
    if days != [] {
      var init := days[..|days| - 1];
      var last := days[|days| - 1];
      assert forall k :: 0 <= k < |init| ==> init[k] == days[k];
      assert NonIncreasing(init, DayKey) && Distinct(init);
      assert last !in init;
      DayLinesUnique(init, d);
      DayLinesSpec(init, d);
      var c := DayCounts(d, last);
      ItemLinesAt(last, c);
      var a := DayLines(init, d);
      var b := ItemLines(last, c);
      var lines := DayLines(days, d);
      assert lines == a + b;
      forall i, j | 0 <= i < j < |lines|
        ensures DayLines(days, d)[i].DayLine? && DayLines(days, d)[j].DayLine?
          && (DayLines(days, d)[i].day != DayLines(days, d)[j].day || DayLines(days, d)[i].sub != DayLines(days, d)[j].sub)
      {
        if j < |a| {
          assert lines[i] == a[i] && lines[j] == a[j];
        } else if i >= |a| {
          assert lines[i] == b[i - |a|] && lines[j] == b[j - |a|];
          assert Keys(c)[i - |a|] != Keys(c)[j - |a|];
        } else {
          assert lines[i] == a[i] && lines[j] == b[j - |a|];
          assert a[i].day in init;
        }
      }
    } else {
      assert |DayLines(days, d)| == 0;
    }
  }

  /** The daily dict of the rows: positive counters with distinct keys, one per distinct day, counting each day's subs. */
  lemma DailyDict(rows: seq<Row>, clock: Clock)
    ensures WellFormedDaily(Tally(rows, clock).daily)
    ensures Distinct(DayKeys(Tally(rows, clock).daily))
    ensures forall x, k :: Get(DayCounts(Tally(rows, clock).daily, x), k) == multiset(SubsOn(rows, clock, x))[k]
  {
    var d := Tally(rows, clock).daily;
    forall x ensures Positive(DayCounts(d, x)) && Distinct(Keys(DayCounts(d, x)))
      && forall k :: Get(DayCounts(d, x), k) == multiset(SubsOn(rows, clock, x))[k]
    {
      TallyDay(rows, clock, x);
      CountAllSpec(SubsOn(rows, clock, x));
      FirstSeenDistinct(SubsOn(rows, clock, x));
    }
    TallyDays(rows, clock);
    FirstSeenDistinct(ParsedDays(rows, clock));
  }

  /** Some line of the section lists this sub on this day. */
  predicate HasDayLine(lines: seq<Line>, day: int, sub: string) {
    exists i :: 0 <= i < |lines| && lines[i].DayLine? && lines[i].day == day && lines[i].sub == sub
  }

  /** A sub counted on a day has its line in the daily section built from a rearrangement of the dict's days. */
  lemma DayCover(days: seq<int>, d: seq<(int, Counts<string>)>, x: int, k: string)
    requires multiset(days) == multiset(DayKeys(d))
    requires Get(DayCounts(d, x), k) > 0
    ensures HasDayLine(DayLines(days, d), x, k)
  {
    var c := DayCounts(d, x);
    GetKey(c, k);
    DayCountsKey(d, x);
    assert x in multiset(days);
    var p :| 0 <= p < |days| && days[p] == x;
    var m :| 0 <= m < |c| && Keys(c)[m] == k;
    DayLinesCover(days, d, p, m);
  }

  /** Every (day, sub) pair with a parsable row has a line in the daily section. */
  lemma DailyCovers(rows: seq<Row>, clock: Clock)
    ensures forall x, k :: multiset(SubsOn(rows, clock, x))[k] > 0 ==> HasDayLine(DaySection(Tally(rows, clock)), x, k)
  {
    var d := Tally(rows, clock).daily;
    var days := SortDesc(DayKeys(d), DayKey);
    var lines := DaySection(Tally(rows, clock));
    assert lines == DayLines(days, d);
    DailyDict(rows, clock);
    SortDescSpec(DayKeys(d), DayKey);
    forall x, k | multiset(SubsOn(rows, clock, x))[k] > 0
      ensures HasDayLine(lines, x, k)
    {
      assert Get(DayCounts(d, x), k) > 0;
      DayCover(days, d, x, k);
    }
  }

  /**
   * The daily section: days never increase down the section, each line's
   * count is the number of parsable rows of that day and sub, at least one,
   * no (day, sub) pair is listed twice and every pair with a parsable row is listed.
   */
  lemma DailySection(rows: seq<Row>, clock: Clock)
    ensures var lines := DaySection(Tally(rows, clock));
      (forall i :: 0 <= i < |lines| ==>
        lines[i].DayLine? && lines[i].count >= 1 && lines[i].count == multiset(SubsOn(rows, clock, lines[i].day))[lines[i].sub])
      && (forall i, j :: 0 <= i < j < |lines| ==> lines[i].day >= lines[j].day)
      && (forall i, j :: 0 <= i < j < |lines| ==>
        lines[i].DayLine? && lines[j].DayLine? && (lines[i].day != lines[j].day || lines[i].sub != lines[j].sub))
      && (forall x, k :: multiset(SubsOn(rows, clock, x))[k] > 0 ==> HasDayLine(lines, x, k))
  {
    var d := Tally(rows, clock).daily;
    var days := SortDesc(DayKeys(d), DayKey);
    DailyDict(rows, clock);
    SortDescSpec(DayKeys(d), DayKey);
    PermutationDistinct(DayKeys(d), days);
    DayLinesSpec(days, d);
    DayLinesUnique(days, d);
    DailyCovers(rows, clock);
  }

  /** Every count on these lines is at least one. */
  predicate CountsAtLeastOne(lines: seq<Line>) {
    forall l :: l in lines && (l.DayLine? || l.CountLine?) ==> l.count >= 1
  }

  lemma CountsAtLeastOneJoin(a: seq<Line>, b: seq<Line>)
    requires CountsAtLeastOne(a) && CountsAtLeastOne(b)
    ensures CountsAtLeastOne(a + b)
  {
  }

  lemma CountsAtLeastOneAt(lines: seq<Line>)
    requires forall i :: 0 <= i < |lines| ==> (lines[i].DayLine? || lines[i].CountLine?) && lines[i].count >= 1
    ensures CountsAtLeastOne(lines)
  {
    forall l | l in lines && (l.DayLine? || l.CountLine?) ensures l.count >= 1 {
      var i :| 0 <= i < |lines| && lines[i] == l;
    }
  }

  /** Every count in the table is at least one. */
  lemma CountsPositive(rows: seq<Row>, clock: Clock)
    ensures CountsAtLeastOne(Layout(Tally(rows, clock)))
  {
    var agg := Tally(rows, clock);
    var d := DaySection(agg);
    var w := CountLines(Ranked(agg.weekly));
    var m := CountLines(Ranked(agg.mods));
    DailySection(rows, clock);
    CountsAtLeastOneAt(d);
    WeeklySection(rows, clock);
    CountsAtLeastOneAt(w);
    ModsSection(rows, clock);
    CountsAtLeastOneAt(m);
    var a := [Title(DailyTitle)] + d;
    CountsAtLeastOneJoin([Title(DailyTitle)], d);
    CountsAtLeastOneJoin(a, [Blank, Title(WeeklyTitle)]);
    var b := a + [Blank, Title(WeeklyTitle)];
    CountsAtLeastOneJoin(b, w);
    var c := b + w;
    CountsAtLeastOneJoin(c, [Blank, Title(ModsTitle)]);
    CountsAtLeastOneJoin(c + [Blank, Title(ModsTitle)], m);
  }

  /** write_stats_sheet without the sheet I/O: the values written from cell A1. */
  method WriteStats(rows: seq<Row>, clock: Clock) returns (values: seq<Line>)
    ensures values == Layout(Tally(rows, clock))
  {
    var agg := CountBans(rows, clock);
    values := BuildTable(agg);
  }
}

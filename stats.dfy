/** The statistics aggregate held in `callStats` (app.js:146): six sparse tables from a
    category key `main_sub` to an integer, the two timestamp lists and the `lastDate`
    marker. This module gives the value and, as functions, what the imperative code does
    to it: the read with default 0 (app.js:212-219), the commit of a logged call
    (app.js:1865-1884), its reversal by undo (app.js:1938-1964) and the day rollover
    (app.js:614-628). */
module Stats {

  /** The six counter tables, in the order the source lists their names. */
  datatype Counter = Today | TodayInbound | TodayOutbound | AllTime | AllTimeInbound | AllTimeOutbound

  const Counters: seq<Counter> := [Today, TodayInbound, TodayOutbound, AllTime, AllTimeInbound, AllTimeOutbound]

  datatype CallStats = CallStats(
    today: map<string, int>,
    todayInbound: map<string, int>,
    todayOutbound: map<string, int>,
    allTime: map<string, int>,
    allTimeInbound: map<string, int>,
    allTimeOutbound: map<string, int>,
    todayTimestamps: seq<string>,
    allTimeTimestamps: seq<string>,
    lastDate: string)
  {
    /** `callStats[name]` for one of the six counter names. */
    function Table(c: Counter): map<string, int>
    {
      match c
      case Today => today
      case TodayInbound => todayInbound
      case TodayOutbound => todayOutbound
      case AllTime => allTime
      case AllTimeInbound => allTimeInbound
      case AllTimeOutbound => allTimeOutbound
    }

    /** The aggregate with one table replaced and everything else kept. */
    function WithTable(c: Counter, m: map<string, int>): (r: CallStats)
      ensures r.Table(c) == m
      ensures forall d :: d != c ==> r.Table(d) == Table(d)
      ensures r.todayTimestamps == todayTimestamps && r.allTimeTimestamps == allTimeTimestamps
      ensures r.lastDate == lastDate
    {
      match c
      case Today => this.(today := m)
      case TodayInbound => this.(todayInbound := m)
      case TodayOutbound => this.(todayOutbound := m)
      case AllTime => this.(allTime := m)
      case AllTimeInbound => this.(allTimeInbound := m)
      case AllTimeOutbound => this.(allTimeOutbound := m)
    }
  }

  /** Two aggregates with the same six tables, lists and date are the same. */
  lemma Extensionality(s: CallStats, t: CallStats)
    requires forall c :: s.Table(c) == t.Table(c)
    requires s.todayTimestamps == t.todayTimestamps && s.allTimeTimestamps == t.allTimeTimestamps
    requires s.lastDate == t.lastDate
    ensures s == t
  {
    assert s.Table(Today) == t.Table(Today) && s.Table(TodayInbound) == t.Table(TodayInbound);
    assert s.Table(TodayOutbound) == t.Table(TodayOutbound) && s.Table(AllTime) == t.Table(AllTime);
    assert s.Table(AllTimeInbound) == t.Table(AllTimeInbound) && s.Table(AllTimeOutbound) == t.Table(AllTimeOutbound);
  }

  /** What a fresh aggregate looks like (app.js:630-640). */
  function Fresh(date: string): (s: CallStats)
  {
    CallStats(map[], map[], map[], map[], map[], map[], [], [], date)
  }

  /** `table[key] || 0`: an absent key reads as 0. */
  function Get(m: map<string, int>, key: string): int
  {
    if key in m then m[key] else 0
  }

  /** The composite key `${mainKey}_${subKey}` the statistics are filed under. */
  function StatKey(mainKey: string, subKey: string): string
  {
    mainKey + "_" + subKey
  }

  /** Two different category pairs can share one statistics key, because keys may
      themselves contain `_`. */
  lemma StatKeyCollision()
    ensures StatKey("a_b", "c") == StatKey("a", "b_c")
  {
  }

  datatype Figures = Figures(calls: int, inbound: int, outbound: int)

  /** `getStatsForCategory(key, isToday)`: the three figures of one key in one window. */
  function StatsFor(s: CallStats, key: string, isToday: bool): Figures
  {
    if isToday then Figures(Get(s.today, key), Get(s.todayInbound, key), Get(s.todayOutbound, key))
    else Figures(Get(s.allTime, key), Get(s.allTimeInbound, key), Get(s.allTimeOutbound, key))
  }

  // ----- Commit -----

  /** How much a logged call adds to a table: one call, or the entered minutes. */
  function Amount(c: Counter, inbound: int, outbound: int): int
  {
    match c
    case Today => 1
    case AllTime => 1
    case TodayInbound => inbound
    case AllTimeInbound => inbound
    case TodayOutbound => outbound
    case AllTimeOutbound => outbound
  }

  /** `if (!m[key]) m[key] = 0;` followed by `m[key] += amount`. */
  function Increment(m: map<string, int>, key: string, amount: int): map<string, int>
  {
    m[key := Get(m, key) + amount]
  }

  /** What `logCall` does to the aggregate (app.js:1867-1884): each table gains its amount
      under `key`, and the timestamp is appended to both lists. */
  function Committed(s: CallStats, key: string, inbound: int, outbound: int, timestamp: string): (r: CallStats)
  {
    CallStats(
      Increment(s.today, key, 1),
      Increment(s.todayInbound, key, inbound),
      Increment(s.todayOutbound, key, outbound),
      Increment(s.allTime, key, 1),
      Increment(s.allTimeInbound, key, inbound),
      Increment(s.allTimeOutbound, key, outbound),
      s.todayTimestamps + [timestamp],
      s.allTimeTimestamps + [timestamp],
      s.lastDate)
  }

  lemma CommittedTable(s: CallStats, key: string, inbound: int, outbound: int, timestamp: string, c: Counter)
    ensures Committed(s, key, inbound, outbound, timestamp).Table(c) == Increment(s.Table(c), key, Amount(c, inbound, outbound))
  {
  }

  /** After a commit, the key's figures in either window have risen by one call and by the
      entered minutes, and every other key reads as before. */
  lemma CommitStatsFor(s: CallStats, key: string, inbound: int, outbound: int, timestamp: string, other: string, isToday: bool)
    ensures var before := StatsFor(s, key, isToday);
      StatsFor(Committed(s, key, inbound, outbound, timestamp), key, isToday)
        == Figures(before.calls + 1, before.inbound + inbound, before.outbound + outbound)
    ensures other != key ==>
      StatsFor(Committed(s, key, inbound, outbound, timestamp), other, isToday) == StatsFor(s, other, isToday)
  {
  }

  // ----- Undo -----

  /** The undo snapshot `lastLoggedCall` (app.js:1886-1893). */
  datatype LoggedCall = LoggedCall(
    categoryKey: string,
    mainKey: string,
    subKey: string,
    inboundMinutes: int,
    outboundMinutes: int,
    timestamp: string)

  /** One table's step of `undoLastCall`: only a truthy (present, non-zero) counter is
      reduced, and one that lands on exactly 0 is deleted. */
  function Decrement(m: map<string, int>, key: string, amount: int): map<string, int>
  {
    if Get(m, key) != 0 then
      (if m[key] - amount == 0 then m - {key} else m[key := m[key] - amount])
    else m
  }

  /** `arr.splice(arr.indexOf(t), 1)` when `t` occurs, otherwise `arr`: the first
      occurrence of `t` is taken out. */
  function RemoveFirst(ts: seq<string>, t: string): (r: seq<string>)
    ensures t in ts ==> |r| == |ts| - 1
    ensures t !in ts ==> r == ts
  {
    if ts == [] then []
    else if ts[0] == t then ts[1..]
    else [ts[0]] + RemoveFirst(ts[1..], t)
  }

  /** Removing the first occurrence takes exactly one copy of `t` out of the list, so
      the other timestamps keep their multiplicities. */
  lemma {:induction false} RemoveFirstMultiset(ts: seq<string>, t: string)
    requires t in ts
    ensures multiset(RemoveFirst(ts, t)) == multiset(ts) - multiset{t}
  {
    if ts[0] == t {
      assert ts == [ts[0]] + ts[1..];
    } else {
      RemoveFirstMultiset(ts[1..], t);
      assert ts == [ts[0]] + ts[1..];
    }
  }

  /** Removing the first occurrence of a timestamp that was just appended, and occurs
      nowhere earlier, gives the list back. */
  lemma {:induction false} RemoveFirstAppended(ts: seq<string>, t: string)
    requires t !in ts
    ensures RemoveFirst(ts + [t], t) == ts
  {
    if ts == [] {
      assert [t][1..] == [];
    } else {
      assert (ts + [t])[1..] == ts[1..] + [t];
      RemoveFirstAppended(ts[1..], t);
      assert ts == [ts[0]] + ts[1..];
    }
  }

  /** What `undoLastCall` does to the aggregate (app.js:1938-1964). */
  function Reversed(s: CallStats, call: LoggedCall): (r: CallStats)
  {
    var k := call.categoryKey;
    CallStats(
      Decrement(s.today, k, 1),
      Decrement(s.todayInbound, k, call.inboundMinutes),
      Decrement(s.todayOutbound, k, call.outboundMinutes),
      Decrement(s.allTime, k, 1),
      Decrement(s.allTimeInbound, k, call.inboundMinutes),
      Decrement(s.allTimeOutbound, k, call.outboundMinutes),
      RemoveFirst(s.todayTimestamps, call.timestamp),
      RemoveFirst(s.allTimeTimestamps, call.timestamp),
      s.lastDate)
  }

  lemma ReversedTable(s: CallStats, call: LoggedCall, c: Counter)
    ensures Reversed(s, call).Table(c) == Decrement(s.Table(c), call.categoryKey, Amount(c, call.inboundMinutes, call.outboundMinutes))
  {
  }

  /** Undoing an increment: when the counter did not land on 0, undo restores it, except
      that a counter that was stored as 0 is deleted, so an absent counter is absent
      again. When it did land on 0 (a zero amount on an absent or zero counter), undo
      skips it and the 0 stays. */
  lemma UndoCounter(m: map<string, int>, key: string, amount: int)
    ensures Get(m, key) + amount != 0 ==>
      Decrement(Increment(m, key, amount), key, amount) == if Get(m, key) == 0 then m - {key} else m
    ensures Get(m, key) + amount == 0 ==>
      Decrement(Increment(m, key, amount), key, amount) == m[key := 0]
  {
  }

  /** A call logged with zero minutes on a fresh key leaves a 0 minute counter behind
      after undo: `logCall` stores the 0, and undo skips falsy counters. */
  lemma ZeroMinuteCounterSurvivesUndo(s: CallStats, key: string, inbound: int, timestamp: string)
    requires key !in s.todayOutbound
    ensures var call := LoggedCall(key, "", "", inbound, 0, timestamp);
      var r := Reversed(Committed(s, key, inbound, 0, timestamp), call);
      key in r.todayOutbound && r.todayOutbound[key] == 0
  {
  }

  /** No table holds an explicit 0 under `key`. */
  predicate SparseAt(s: CallStats, key: string)
  {
    forall c :: key in s.Table(c) ==> s.Table(c)[key] != 0
  }

  /** Commit followed by undo of the same snapshot gives the aggregate back, provided no
      counter lands on 0 through the commit, the tables are sparse at the key and the
      timestamp is new. */
  lemma CommitThenUndo(s: CallStats, call: LoggedCall)
    requires SparseAt(s, call.categoryKey)
    requires forall c :: Get(s.Table(c), call.categoryKey) + Amount(c, call.inboundMinutes, call.outboundMinutes) != 0
    requires call.timestamp !in s.todayTimestamps && call.timestamp !in s.allTimeTimestamps
    ensures Reversed(Committed(s, call.categoryKey, call.inboundMinutes, call.outboundMinutes, call.timestamp), call) == s
  {
    var k := call.categoryKey;
    var r := Reversed(Committed(s, k, call.inboundMinutes, call.outboundMinutes, call.timestamp), call);
    forall c ensures r.Table(c) == s.Table(c) {
      var a := Amount(c, call.inboundMinutes, call.outboundMinutes);
      ReversedTable(Committed(s, k, call.inboundMinutes, call.outboundMinutes, call.timestamp), call, c);
      CommittedTable(s, k, call.inboundMinutes, call.outboundMinutes, call.timestamp, c);
      UndoCounter(s.Table(c), k, a);
      if Get(s.Table(c), k) == 0 {
        assert k !in s.Table(c);
        assert s.Table(c) - {k} == s.Table(c);
      }
    }
    RemoveFirstAppended(s.todayTimestamps, call.timestamp);
    RemoveFirstAppended(s.allTimeTimestamps, call.timestamp);
    Extensionality(r, s);
  }

  // ----- The calls/timestamps invariant -----

  /** The sum of the values of a table. */
  ghost function Sum(m: map<string, int>): int
    decreases |m|
  {
    if m == map[] then 0 else var k :| k in m; m[k] + Sum(m - {k})
  }

  /** Any key can be taken out first. */
  lemma {:induction false} SumRemove(m: map<string, int>, k: string)
    requires k in m
    ensures Sum(m) == m[k] + Sum(m - {k})
    decreases |m|
  {
    var j :| j in m && Sum(m) == m[j] + Sum(m - {j});
    if j != k {
      SumRemove(m - {j}, k);
      SumRemove(m - {k}, j);
      assert m - {j} - {k} == m - {k} - {j};
    }
  }

  /** Setting a key adds the difference to the sum. */
  lemma SumIncrement(m: map<string, int>, key: string, amount: int)
    ensures Sum(Increment(m, key, amount)) == Sum(m) + amount
  {
    var r := Increment(m, key, amount);
    SumRemove(r, key);
    assert r - {key} == m - {key};
    if key in m {
      SumRemove(m, key);
    } else {
      assert m - {key} == m;
    }
  }

  /** Undo takes the amount off the sum when the counter is truthy. */
  lemma SumDecrement(m: map<string, int>, key: string, amount: int)
    requires Get(m, key) != 0
    ensures Sum(Decrement(m, key, amount)) == Sum(m) - amount
  {
    SumRemove(m, key);
    var r := Decrement(m, key, amount);
    if m[key] - amount != 0 {
      SumRemove(r, key);
      assert r - {key} == m - {key};
    }
  }

  predicate NonNegative(m: map<string, int>)
  {
    forall k :: k in m ==> m[k] >= 0
  }

  /** The call counters never go negative, and in each window they add up to the number
      of timestamps. */
  ghost predicate CallsMatchTimestamps(s: CallStats)
  {
    && NonNegative(s.today) && NonNegative(s.allTime)
    && Sum(s.today) == |s.todayTimestamps|
    && Sum(s.allTime) == |s.allTimeTimestamps|
  }

  /** A fresh aggregate satisfies the invariant. */
  lemma FreshMatches(date: string)
    ensures CallsMatchTimestamps(Fresh(date))
  {
  }

  /** Logging a call keeps the invariant. */
  lemma CommitKeepsInvariant(s: CallStats, key: string, inbound: int, outbound: int, timestamp: string)
    requires CallsMatchTimestamps(s)
    ensures CallsMatchTimestamps(Committed(s, key, inbound, outbound, timestamp))
  {
    SumIncrement(s.today, key, 1);
    SumIncrement(s.allTime, key, 1);
  }

  /** Undoing the call just logged keeps the invariant. */
  lemma UndoAfterCommitKeepsInvariant(s: CallStats, call: LoggedCall)
    requires CallsMatchTimestamps(s)
    ensures var c := Committed(s, call.categoryKey, call.inboundMinutes, call.outboundMinutes, call.timestamp);
      CallsMatchTimestamps(Reversed(c, call))
  {
    var k := call.categoryKey;
    var c := Committed(s, k, call.inboundMinutes, call.outboundMinutes, call.timestamp);
    CommitKeepsInvariant(s, k, call.inboundMinutes, call.outboundMinutes, call.timestamp);
    SumDecrement(c.today, k, 1);
    SumDecrement(c.allTime, k, 1);
    assert call.timestamp in c.todayTimestamps && call.timestamp in c.allTimeTimestamps;
  }

  // ----- Day rollover -----

  /** The rollover of `loadCallStats`: on a new day the three today tables and the today
      timestamps are emptied and the date is moved; on the same day nothing changes. */
  function RolledOver(s: CallStats, date: string): (r: CallStats)
  {
    if s.lastDate != date then
      s.(today := map[], todayInbound := map[], todayOutbound := map[], todayTimestamps := [], lastDate := date)
    else s
  }

  /** After the rollover the date is today's, the all-time tables and timestamps are as
      they were, and on a new day the today window is empty. */
  lemma RolloverSpec(s: CallStats, date: string)
    ensures RolledOver(s, date).lastDate == date
    ensures RolledOver(s, date).allTime == s.allTime
    ensures RolledOver(s, date).allTimeInbound == s.allTimeInbound
    ensures RolledOver(s, date).allTimeOutbound == s.allTimeOutbound
    ensures RolledOver(s, date).allTimeTimestamps == s.allTimeTimestamps
    ensures s.lastDate != date ==> RolledOver(s, date) == Fresh(date).(
      allTime := s.allTime, allTimeInbound := s.allTimeInbound, allTimeOutbound := s.allTimeOutbound,
      allTimeTimestamps := s.allTimeTimestamps)
    ensures s.lastDate == date ==> RolledOver(s, date) == s
  {
  }

  /** Loading twice on the same day clears the today window at most once. */
  lemma RolloverIdempotent(s: CallStats, date: string)
    ensures RolledOver(RolledOver(s, date), date) == RolledOver(s, date)
  {
  }

  /** The rollover keeps the invariant. */
  lemma RolloverKeepsInvariant(s: CallStats, date: string)
    requires CallsMatchTimestamps(s)
    ensures CallsMatchTimestamps(RolledOver(s, date))
  {
  }
}

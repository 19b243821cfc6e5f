/** The module-level state of app.js (lines 145-160 and 279) and the operations that change
    it: loading the categories and statistics, logging a call and undoing it, the
    category and custom-field editors, the stopwatch and the dropdown focus. Browser
    storage appears as the `stored...` fields, what the user typed or answered as
    parameters, and the clock as a parameter in milliseconds. */
module Application {
  import opened Wrappers
  import opened Text
  import opened Slug
  import opened Dict
  import opened Categories
  import opened Stats
  import opened TimeEntry
  import Focus

  /** Why an operation stops. Most show an alert; `UnknownCategory` and `NoSuchField`
      stand for a read of a missing entry, where the source throws before changing
      anything. */
  datatype Error =
    | NoMainCategory
    | NoSubcategory
    | EmptyName
    | DuplicateKey
    | UnknownCategory
    | NoTimeEntered
    | NothingToUndo
    | NoSuchField

  /** How long the undo button stays, in milliseconds (app.js:1900-1904). */
  const UndoWindowMs: int := 60000

  /** How many stopwatch entries are kept (app.js:977-980). */
  const HistoryLimit: nat := 20

  const UnnamedTask: string := "Unnamed Task"

  datatype HistoryEntry = HistoryEntry(name: string, duration: nat, timestamp: string)

  // ----- The six counters, one loop step at a time -----

  /** Each counter appears once in `Counters`. */
  lemma CountersDistinct(i: nat)
    requires i < |Counters|
    ensures Counters[i] !in Counters[..i]
  {
  }

  lemma CountersComplete(c: Counter)
    ensures c in Counters
  {
    match c
    case Today => assert Counters[0] == c;
    case TodayInbound => assert Counters[1] == c;
    case TodayOutbound => assert Counters[2] == c;
    case AllTime => assert Counters[3] == c;
    case AllTimeInbound => assert Counters[4] == c;
    case AllTimeOutbound => assert Counters[5] == c;
  }

  /** The first `i` counters raised for `key`, the others untouched. */
  predicate RaisedUpTo(s: CallStats, r: CallStats, i: nat, key: string, inbound: int, outbound: int)
    requires i <= |Counters|
  {
    && (forall c :: c in Counters[..i] ==> r.Table(c) == Increment(s.Table(c), key, Amount(c, inbound, outbound)))
    && (forall c :: c !in Counters[..i] ==> r.Table(c) == s.Table(c))
    && r.todayTimestamps == s.todayTimestamps && r.allTimeTimestamps == s.allTimeTimestamps
    && r.lastDate == s.lastDate
  }

  lemma RaiseStep(s: CallStats, r: CallStats, i: nat, key: string, inbound: int, outbound: int, m: map<string, int>)
    requires i < |Counters| && RaisedUpTo(s, r, i, key, inbound, outbound)
    requires m == Increment(r.Table(Counters[i]), key, Amount(Counters[i], inbound, outbound))
    ensures RaisedUpTo(s, r.WithTable(Counters[i], m), i + 1, key, inbound, outbound)
  {
    CountersDistinct(i);
    assert Counters[..i + 1] == Counters[..i] + [Counters[i]];
  }

  /** The counter part of `logCall` (app.js:1867-1878), then the two pushes
      (app.js:1880-1884): a loop over the six counter names, each initialised to 0 when
      falsy and raised by its amount. */
  method CommitCall(s: CallStats, key: string, inbound: int, outbound: int, timestamp: string) returns (r: CallStats)
    ensures r == Committed(s, key, inbound, outbound, timestamp)
  {
    r := s;
    var i := 0;
    while i < |Counters|
      invariant 0 <= i <= |Counters|
      invariant RaisedUpTo(s, r, i, key, inbound, outbound)
    {
      var c := Counters[i];
      var m := r.Table(c);
      if key !in m || m[key] == 0 {
        m := m[key := 0];
      }
      m := m[key := m[key] + Amount(c, inbound, outbound)];
      RaiseStep(s, r, i, key, inbound, outbound, m);
      r := r.WithTable(c, m);
      i := i + 1;
    }
    CommittedByTables(s, key, inbound, outbound, timestamp, r);
    r := r.(todayTimestamps := r.todayTimestamps + [timestamp], allTimeTimestamps := r.allTimeTimestamps + [timestamp]);
  }

  /** Six raised tables and the two pushes make up `Committed`. */
  lemma CommittedByTables(s: CallStats, key: string, inbound: int, outbound: int, timestamp: string, r: CallStats)
    requires RaisedUpTo(s, r, |Counters|, key, inbound, outbound)
    ensures r.(todayTimestamps := r.todayTimestamps + [timestamp], allTimeTimestamps := r.allTimeTimestamps + [timestamp])
      == Committed(s, key, inbound, outbound, timestamp)
  {
    var r' := r.(todayTimestamps := r.todayTimestamps + [timestamp], allTimeTimestamps := r.allTimeTimestamps + [timestamp]);
    var goal := Committed(s, key, inbound, outbound, timestamp);
    assert Counters[..|Counters|] == Counters;
    forall c ensures r'.Table(c) == goal.Table(c) {
      CountersComplete(c);
      assert r'.Table(c) == r.Table(c);
      CommittedTable(s, key, inbound, outbound, timestamp, c);
    }
    Extensionality(r', goal);
  }

  /** `arr.indexOf(t)`: the first position of `t`, or -1. */
  method IndexOf(ts: seq<string>, t: string) returns (index: int)
    ensures -1 <= index < |ts|
    ensures index == -1 <==> t !in ts
    ensures index >= 0 ==> ts[index] == t && t !in ts[..index]
  {
    index := 0;
    while index < |ts|
      invariant 0 <= index <= |ts|
      invariant t !in ts[..index]
    {
      if ts[index] == t {
        return;
      }
      assert ts[..index + 1] == ts[..index] + [ts[index]];
      index := index + 1;
    }
    assert ts[..index] == ts;
    index := -1;
  }

  /** Splicing out the first occurrence is `RemoveFirst`. */
  lemma {:induction false} SpliceFirst(ts: seq<string>, t: string, index: nat)
    requires index < |ts| && ts[index] == t && t !in ts[..index]
    ensures ts[..index] + ts[index + 1..] == RemoveFirst(ts, t)
  {
    if index > 0 {
      assert ts[0] != t by { assert ts[0] == ts[..index][0]; }
      assert ts[1..][..index - 1] == ts[..index][1..];
      SpliceFirst(ts[1..], t, index - 1);
      assert ts[..index] == [ts[0]] + ts[1..][..index - 1];
      assert ts[1..][index - 1 + 1..] == ts[index + 1..];
    }
  }

  /** `if (index > -1) arr.splice(index, 1)`. */
  method RemoveTimestamp(ts: seq<string>, t: string) returns (r: seq<string>)
    ensures r == RemoveFirst(ts, t)
  {
    var index := IndexOf(ts, t);
    if index > -1 {
      SpliceFirst(ts, t, index);
      r := ts[..index] + ts[index + 1..];
    } else {
      r := ts;
    }
  }

  /** The statistics part of `undoLastCall` (app.js:1949-1964): a loop over the six
      counter names that lowers each truthy counter and deletes it when it reaches 0, then
      the timestamp taken out of both lists. */
  method ReverseCall(s: CallStats, call: LoggedCall) returns (r: CallStats)
    ensures r == Reversed(s, call)
  {
    var key := call.categoryKey;
    r := s;
    var i := 0;
    while i < |Counters|
      invariant 0 <= i <= |Counters|
      invariant LoweredUpTo(s, r, i, call)
    {
      var c := Counters[i];
      var m := r.Table(c);
      if key in m && m[key] != 0 {
        var v := m[key] - Amount(c, call.inboundMinutes, call.outboundMinutes);
        if v == 0 {
          m := m - {key};
        } else {
          m := m[key := v];
        }
      }
      LowerStep(s, r, i, call, m);
      r := r.WithTable(c, m);
      i := i + 1;
    }
    assert Counters[..i] == Counters;
    var today := RemoveTimestamp(r.todayTimestamps, call.timestamp);
    var allTime := RemoveTimestamp(r.allTimeTimestamps, call.timestamp);
    r := r.(todayTimestamps := today, allTimeTimestamps := allTime);
    ReversedByTables(s, call, r);
  }

  /** The first `i` counters lowered for the call, the others untouched. */
  predicate LoweredUpTo(s: CallStats, r: CallStats, i: nat, call: LoggedCall)
    requires i <= |Counters|
  {
    && (forall c :: c in Counters[..i] ==>
          r.Table(c) == Decrement(s.Table(c), call.categoryKey, Amount(c, call.inboundMinutes, call.outboundMinutes)))
    && (forall c :: c !in Counters[..i] ==> r.Table(c) == s.Table(c))
    && r.todayTimestamps == s.todayTimestamps && r.allTimeTimestamps == s.allTimeTimestamps
    && r.lastDate == s.lastDate
  }

  lemma LowerStep(s: CallStats, r: CallStats, i: nat, call: LoggedCall, m: map<string, int>)
    requires i < |Counters| && LoweredUpTo(s, r, i, call)
    requires m == Decrement(r.Table(Counters[i]), call.categoryKey, Amount(Counters[i], call.inboundMinutes, call.outboundMinutes))
    ensures LoweredUpTo(s, r.WithTable(Counters[i], m), i + 1, call)
  {
    CountersDistinct(i);
    assert Counters[..i + 1] == Counters[..i] + [Counters[i]];
  }

  /** Six lowered tables and the two splices make up `Reversed`. */
  lemma ReversedByTables(s: CallStats, call: LoggedCall, r: CallStats)
    requires forall c :: c in Counters ==>
      r.Table(c) == Decrement(s.Table(c), call.categoryKey, Amount(c, call.inboundMinutes, call.outboundMinutes))
    requires r.todayTimestamps == RemoveFirst(s.todayTimestamps, call.timestamp)
    requires r.allTimeTimestamps == RemoveFirst(s.allTimeTimestamps, call.timestamp)
    requires r.lastDate == s.lastDate
    ensures r == Reversed(s, call)
  {
    var goal := Reversed(s, call);
    forall c ensures r.Table(c) == goal.Table(c) {
      CountersComplete(c);
      ReversedTable(s, call, c);
    }
    Extensionality(r, goal);
  }

  // ----- Resolving the subcategory of a call -----

  /** The subcategory key a call is filed under, and whether it had to be created. */
  datatype Resolution = Resolution(key: string, created: bool)

  /** The subcategory `logCall` files a call under (app.js:1824-1844): the key the lookup
      finds for the typed name; failing that, a new subcategory keyed by the name's slug,
      unless that slug is already taken. */
  function ResolveSubcategory(t: Tree, mainKey: string, name: string): Result<Resolution, Error>
    requires mainKey in t.items
  {
    match SubcategoryKeyFromName(t, mainKey, name)
    case Some(k) => Success(Resolution(k, false))
    case None =>
      var k := GenerateKey(name);
      if k in t.items[mainKey].subcategories.items then Failure(DuplicateKey)
      else Success(Resolution(k, true))
  }

  /** The tree after the resolution: a created subcategory has the typed name and an
      empty template. */
  function AfterResolution(t: Tree, mainKey: string, name: string, res: Resolution): Tree
    requires mainKey in t.items
  {
    if res.created then WithSubcategory(t, mainKey, res.key, Subcategory(name, "")) else t
  }

  /** The first name match among the subcategories, after one with a matching name was
      appended to a dictionary that had none. */
  lemma FirstNameMatchAppended(subs: Dict<Subcategory>, k: string, sub: Subcategory, name: string)
    requires k !in subs.items && Lower(sub.name) == Lower(name)
    requires FirstNameMatch(subs, 0, name) == None
    ensures FirstNameMatch(Put(subs, k, sub), 0, name) == Some(|subs.keys|)
  {
    var subs' := Put(subs, k, sub);
    assert subs'.keys[|subs.keys|] == k;
    assert NameMatches(subs', k, name);
  }

  /** A subcategory is created exactly when the lookup finds nothing and the slug is
      free; it is refused exactly when the lookup finds nothing and the slug is taken.
      Whatever key results exists afterwards, and resolving the same name again finds
      that key without creating anything: two calls logged under one new name share one
      subcategory. */
  lemma ResolveSubcategoryStable(t: Tree, mainKey: string, name: string)
    requires mainKey != "" && mainKey in t.items
    ensures var r := ResolveSubcategory(t, mainKey, name);
      r.Success? ==>
        var t' := AfterResolution(t, mainKey, name, r.value);
        && mainKey in t'.items
        && r.value.key in t'.items[mainKey].subcategories.items
        && (r.value.created <==> SubcategoryKeyFromName(t, mainKey, name) == None)
        && ResolveSubcategory(t', mainKey, name) == Success(Resolution(r.value.key, false))
    ensures var r := ResolveSubcategory(t, mainKey, name);
      r.Failure? <==> (SubcategoryKeyFromName(t, mainKey, name) == None
        && GenerateKey(name) in t.items[mainKey].subcategories.items)
  {
    SubcategoryKeyFromNameSpec(t, mainKey, name);
    var subs := t.items[mainKey].subcategories;
    match SubcategoryKeyFromName(t, mainKey, name)
    case Some(k) =>
    case None =>
      var k := GenerateKey(name);
      if k !in subs.items {
        var sub := Subcategory(name, "");
        var t' := WithSubcategory(t, mainKey, k, sub);
        var subs' := t'.items[mainKey].subcategories;
        assert subs' == Put(subs, k, sub);
        assert FirstNameMatch(subs, 0, name) == None;
        FirstNameMatchAppended(subs, k, sub, name);
        assert subs'.keys[|subs.keys|] == k;
        assert SubcategoryKeyFromName(t', mainKey, name) == Some(k);
      }
  }

  /** The resolution as app.js:1825-1834 writes it: the lookup's answer is tested for
      truthiness, so a hit on the empty key "" counts as no hit and the name's slug is
      tried instead. */
  function ResolveSubcategoryAsWritten(t: Tree, mainKey: string, name: string): Result<Resolution, Error>
    requires mainKey in t.items
  {
    var found := SubcategoryKeyFromName(t, mainKey, name);
    if found.Some? && found.value != "" then Success(Resolution(found.value, false))
    else
      var k := GenerateKey(name);
      if k in t.items[mainKey].subcategories.items then Failure(DuplicateKey)
      else Success(Resolution(k, true))
  }

  /** A subcategory filed under the empty key, whose name has an empty slug, can never
      take a call as written: the lookup finds it, the truthiness test drops the hit, and
      the slug "" is then refused as taken. The resolution the rest of the model uses
      files the call under it. */
  lemma EmptyKeyRefused(t: Tree, mainKey: string, name: string)
    requires mainKey in t.items
    requires SubcategoryKeyFromName(t, mainKey, name) == Some("")
    requires GenerateKey(name) == ""
    ensures ResolveSubcategoryAsWritten(t, mainKey, name) == Failure(DuplicateKey)
    ensures ResolveSubcategory(t, mainKey, name) == Success(Resolution("", false))
  {
    SubcategoryKeyFromNameSpec(t, mainKey, name);
  }

  /** The tree the editor leaves after adding the subcategory "ää" under a main category
      "helppi" that had none. */
  function EmptyKeyTree(): (t: Tree)
    ensures "helppi" in t.items
  {
    Put(Empty(), "helppi", Category("Helppi", Put(Empty(), "", Subcategory("\U{E4}\U{E4}", ""))))
  }

  /** The input that shows it: logging a call under "ää" in that tree. */
  lemma EmptyKeyExample()
    ensures ResolveSubcategoryAsWritten(EmptyKeyTree(), "helppi", "\U{E4}\U{E4}") == Failure(DuplicateKey)
    ensures ResolveSubcategory(EmptyKeyTree(), "helppi", "\U{E4}\U{E4}") == Success(Resolution("", false))
  {
    var t := EmptyKeyTree();
    var subs := t.items["helppi"].subcategories;
    assert subs.keys == [""];
    assert NameMatches(subs, "", "\U{E4}\U{E4}");
    assert FirstNameMatch(subs, 0, "\U{E4}\U{E4}") == Some(0);
    NonAsciiOnlyName();
    EmptyKeyRefused(t, "helppi", "\U{E4}\U{E4}");
  }

  /** The two resolutions differ only on a lookup hit on the empty key: everywhere else
      the truthiness test is harmless. */
  lemma ResolutionsAgree(t: Tree, mainKey: string, name: string)
    requires mainKey in t.items
    requires SubcategoryKeyFromName(t, mainKey, name) != Some("")
    ensures ResolveSubcategoryAsWritten(t, mainKey, name) == ResolveSubcategory(t, mainKey, name)
  {
  }

  /** What the source's resolution gives is sound: a key it finds exists, a key it creates
      was free and exists afterwards. */
  lemma ResolveAsWrittenSound(t: Tree, mainKey: string, name: string)
    requires mainKey in t.items
    ensures var r := ResolveSubcategoryAsWritten(t, mainKey, name);
      r.Success? ==>
        var t' := AfterResolution(t, mainKey, name, r.value);
        && mainKey in t'.items
        && r.value.key in t'.items[mainKey].subcategories.items
        && (r.value.created ==> r.value.key == GenerateKey(name) && r.value.key !in t.items[mainKey].subcategories.items)
        && (!r.value.created ==> t' == t && SubcategoryKeyFromName(t, mainKey, name) == Some(r.value.key))
  {
    SubcategoryKeyFromNameSpec(t, mainKey, name);
  }

  // ----- logCall as a value -----

  /** What `logCall` produces: the outcome, the category tree, whether a subcategory was
      created, and the statistics. */
  datatype Logging = Logging(result: Result<LoggedCall, Error>, categories: Tree, created: bool, stats: CallStats)

  /** `logCall` (app.js:1805-1930) on the typed subcategory name `name` (already trimmed)
      and the minute fields. The checks run in the source's order: main category chosen,
      name given, main category present, subcategory resolved as the source resolves it
      (possibly created), some minute field filled in; only then is the call committed. */
  function LogCallSpec(t: Tree, s: CallStats, mainKey: string, name: string,
                       inbound: seq<string>, outbound: seq<string>, timestamp: string): Logging
  {
    if mainKey == "" then Logging(Failure(NoMainCategory), t, false, s)
    else if name == "" then Logging(Failure(NoSubcategory), t, false, s)
    else if mainKey !in t.items then Logging(Failure(UnknownCategory), t, false, s)
    else match ResolveSubcategoryAsWritten(t, mainKey, name)
      case Failure(e) => Logging(Failure(e), t, false, s)
      case Success(res) =>
        var t' := AfterResolution(t, mainKey, name, res);
        if !AnyEntered(inbound + outbound) then Logging(Failure(NoTimeEntered), t', res.created, s)
        else
          var call := LoggedCall(StatKey(mainKey, res.key), mainKey, res.key, MinutesSum(inbound), MinutesSum(outbound), timestamp);
          Logging(Success(call), t', res.created, Committed(s, call.categoryKey, call.inboundMinutes, call.outboundMinutes, timestamp))
  }

  /** The steps of `logCall` in the source's order, on the tree and the statistics: the
      checks, the lookup or creation of the subcategory, the two loops over the minute
      fields, and the commit. */
  method LogCallOn(t: Tree, s: CallStats, mainKey: string, name: string,
                   inboundValues: seq<string>, outboundValues: seq<string>, timestamp: string) returns (l: Logging)
    ensures l == LogCallSpec(t, s, mainKey, name, inboundValues, outboundValues, timestamp)
  {
    if mainKey == "" {
      return Logging(Failure(NoMainCategory), t, false, s);
    }
    if name == "" {
      return Logging(Failure(NoSubcategory), t, false, s);
    }
    if mainKey !in t.items {
      return Logging(Failure(UnknownCategory), t, false, s);
    }
    var resolved := ResolveSubcategoryAsWritten(t, mainKey, name);
    if resolved.Failure? {
      return Logging(Failure(resolved.error), t, false, s);
    }
    var res := resolved.value;
    var t' := t;
    if res.created {
      t' := WithSubcategory(t, mainKey, res.key, Subcategory(name, ""));
    }
    var inbound := TotalMinutes(inboundValues);
    var outbound := TotalMinutes(outboundValues);
    var inboundEntered := AnyTimeEntered(inboundValues);
    var outboundEntered := AnyTimeEntered(outboundValues);
    EnteredInEither(inboundValues, outboundValues);
    if !inboundEntered && !outboundEntered {
      return Logging(Failure(NoTimeEntered), t', res.created, s);
    }
    var call := LoggedCall(StatKey(mainKey, res.key), mainKey, res.key, inbound, outbound, timestamp);
    var s' := CommitCall(s, call.categoryKey, inbound, outbound, timestamp);
    l := Logging(Success(call), t', res.created, s');
  }

  /** A logged call is filed under an existing subcategory of its main category, with the
      minutes of the two field groups, and the statistics are those of `Committed`. */
  lemma LogCallCommits(t: Tree, s: CallStats, mainKey: string, name: string,
                       inbound: seq<string>, outbound: seq<string>, timestamp: string)
    ensures var l := LogCallSpec(t, s, mainKey, name, inbound, outbound, timestamp);
      l.result.Success? ==>
        var call := l.result.value;
        && call.mainKey == mainKey && mainKey in l.categories.items
        && call.subKey in l.categories.items[mainKey].subcategories.items
        && call.categoryKey == StatKey(mainKey, call.subKey)
        && call.inboundMinutes == MinutesSum(inbound) && call.outboundMinutes == MinutesSum(outbound)
        && call.timestamp == timestamp
        && l.stats == Committed(s, call.categoryKey, call.inboundMinutes, call.outboundMinutes, timestamp)
  {
    if mainKey != "" && name != "" && mainKey in t.items {
      ResolveAsWrittenSound(t, mainKey, name);
    }
  }

  /** A refused call leaves the statistics exactly as they were. The tree changes only
      when a subcategory is created, and the only refusal that can follow a creation is
      the missing time. */
  lemma LogCallFailureKeepsStats(t: Tree, s: CallStats, mainKey: string, name: string,
                                 inbound: seq<string>, outbound: seq<string>, timestamp: string)
    ensures var l := LogCallSpec(t, s, mainKey, name, inbound, outbound, timestamp);
      && (l.result.Failure? ==> l.stats == s)
      && (!l.created ==> l.categories == t)
      && (l.result.Failure? && l.created ==> l.result.error == NoTimeEntered)
  {
  }

  /** The subcategory is created before the minute fields are checked: a new name with
      no time entered is refused, yet the new subcategory stays. */
  lemma SubcategoryCreatedBeforeTimeCheck(t: Tree, s: CallStats, mainKey: string, name: string,
                                          inbound: seq<string>, outbound: seq<string>, timestamp: string)
    requires mainKey != "" && name != "" && mainKey in t.items
    requires SubcategoryKeyFromName(t, mainKey, name) == None
    requires GenerateKey(name) !in t.items[mainKey].subcategories.items
    requires !AnyEntered(inbound + outbound)
    ensures var l := LogCallSpec(t, s, mainKey, name, inbound, outbound, timestamp);
      && l.result == Failure(NoTimeEntered)
      && l.stats == s
      && l.created
      && l.categories == WithSubcategory(t, mainKey, GenerateKey(name), Subcategory(name, ""))
      && l.categories != t
  {
    var l := LogCallSpec(t, s, mainKey, name, inbound, outbound, timestamp);
    assert GenerateKey(name) in l.categories.items[mainKey].subcategories.items;
  }

  /** A new name whose slug is empty, such as "ää", is accepted once: its subcategory is
      created under the key "" and the call is logged. Every later call under that name is
      refused, because the lookup now finds the key "" and the truthiness test drops it. */
  lemma EmptySlugNameLoggedOnce(t: Tree, s: CallStats, mainKey: string, name: string,
                                inbound: seq<string>, outbound: seq<string>, timestamp: string,
                                s2: CallStats, timestamp2: string)
    requires mainKey != "" && name != "" && mainKey in t.items
    requires SubcategoryKeyFromName(t, mainKey, name) == None
    requires GenerateKey(name) == "" && "" !in t.items[mainKey].subcategories.items
    requires AnyEntered(inbound + outbound)
    ensures var l := LogCallSpec(t, s, mainKey, name, inbound, outbound, timestamp);
      && l.result.Success? && l.created && l.result.value.subKey == ""
      && LogCallSpec(l.categories, s2, mainKey, name, inbound, outbound, timestamp2) == Logging(Failure(DuplicateKey), l.categories, false, s2)
  {
    var subs := t.items[mainKey].subcategories;
    var sub := Subcategory(name, "");
    var t' := WithSubcategory(t, mainKey, "", sub);
    var subs' := t'.items[mainKey].subcategories;
    assert subs' == Put(subs, "", sub);
    assert FirstNameMatch(subs, 0, name) == None;
    FirstNameMatchAppended(subs, "", sub, name);
    assert subs'.keys[|subs.keys|] == "";
    assert SubcategoryKeyFromName(t', mainKey, name) == Some("");
  }

  /** Logging a call keeps the number of calls equal to the number of timestamps, in both
      windows. */
  lemma LogCallKeepsInvariant(t: Tree, s: CallStats, mainKey: string, name: string,
                              inbound: seq<string>, outbound: seq<string>, timestamp: string)
    requires CallsMatchTimestamps(s)
    ensures CallsMatchTimestamps(LogCallSpec(t, s, mainKey, name, inbound, outbound, timestamp).stats)
  {
    var l := LogCallSpec(t, s, mainKey, name, inbound, outbound, timestamp);
    LogCallCommits(t, s, mainKey, name, inbound, outbound, timestamp);
    if l.result.Success? {
      var call := l.result.value;
      CommitKeepsInvariant(s, call.categoryKey, call.inboundMinutes, call.outboundMinutes, timestamp);
    }
  }

  /** Undoing a logged call restores the statistics, given the conditions of
      `CommitThenUndo`: no counter landed on 0 and the timestamp was new. */
  lemma LogThenUndo(t: Tree, s: CallStats, mainKey: string, name: string,
                    inbound: seq<string>, outbound: seq<string>, timestamp: string)
    requires timestamp !in s.todayTimestamps && timestamp !in s.allTimeTimestamps
    ensures var l := LogCallSpec(t, s, mainKey, name, inbound, outbound, timestamp);
      l.result.Success? && SparseAt(s, l.result.value.categoryKey)
      && (forall c :: Get(s.Table(c), l.result.value.categoryKey) + Amount(c, MinutesSum(inbound), MinutesSum(outbound)) != 0)
      ==> Reversed(l.stats, l.result.value) == s
  {
    var l := LogCallSpec(t, s, mainKey, name, inbound, outbound, timestamp);
    if l.result.Success? && SparseAt(s, l.result.value.categoryKey)
      && (forall c :: Get(s.Table(c), l.result.value.categoryKey) + Amount(c, MinutesSum(inbound), MinutesSum(outbound)) != 0) {
      CommitThenUndo(s, l.result.value);
    }
  }

  // ----- Custom fields -----

  /** `customFields.some(f => f.name.toLowerCase() === name.toLowerCase())`. */
  method HasFieldNamed(fields: seq<string>, name: string) returns (found: bool)
    ensures found <==> exists i :: 0 <= i < |fields| && Lower(fields[i]) == Lower(name)
  {
    var i := 0;
    while i < |fields|
      invariant 0 <= i <= |fields|
      invariant forall j :: 0 <= j < i ==> Lower(fields[j]) != Lower(name)
    {
      if Lower(fields[i]) == Lower(name) {
        return true;
      }
      i := i + 1;
    }
    return false;
  }

  // ----- Stopwatch history -----

  /** The name a stopwatch entry is saved under: the trimmed input, or "Unnamed Task". */
  function TaskName(input: string): (r: string)
    ensures r != []
    ensures Trim(input) != [] ==> r == Trim(input)
    ensures Trim(input) == [] ==> r == UnnamedTask
  {
    var t := Trim(input);
    if t == [] then UnnamedTask else t
  }

  /** `history.unshift(entry)` followed by `slice(0, 20)` when longer than 20. */
  function Recorded(history: seq<HistoryEntry>, entry: HistoryEntry): seq<HistoryEntry>
  {
    var h := [entry] + history;
    if |h| > HistoryLimit then h[..HistoryLimit] else h
  }

  /** The new entry comes first, followed by the newest of the earlier ones, at most 20 in
      all; nothing is reordered. */
  lemma RecordedSpec(history: seq<HistoryEntry>, entry: HistoryEntry)
    ensures var r := Recorded(history, entry);
      && |r| == (if |history| < HistoryLimit then |history| + 1 else HistoryLimit)
      && r[0] == entry
      && forall i :: 1 <= i < |r| ==> r[i] == history[i - 1]
  {
  }

  /** `n` recordings in a row, newest last in `entries`. */
  function RecordedAll(history: seq<HistoryEntry>, entries: seq<HistoryEntry>): seq<HistoryEntry>
  {
    if entries == [] then history else Recorded(RecordedAll(history, entries[..|entries| - 1]), entries[|entries| - 1])
  }

  /** However many entries are recorded, the history holds at most 20 once anything was
      recorded, and it starts with the latest. */
  lemma {:induction false} RecordedAllBounded(history: seq<HistoryEntry>, entries: seq<HistoryEntry>)
    requires |history| <= HistoryLimit
    ensures |RecordedAll(history, entries)| <= HistoryLimit
    ensures entries != [] ==> RecordedAll(history, entries)[0] == entries[|entries| - 1]
  {
    if entries != [] {
      RecordedAllBounded(history, entries[..|entries| - 1]);
      RecordedSpec(RecordedAll(history, entries[..|entries| - 1]), entries[|entries| - 1]);
    }
  }

  // ----- The application state -----

  class Desk {
    /** `categories`, `callStats` and `customFields` (app.js:145-147). */
    var categories: Tree
    var stats: CallStats
    var customFields: seq<string>
    /** The undo slot and the time its 60-second timeout fires (app.js:150-151). */
    var lastLoggedCall: Option<LoggedCall>
    var undoDeadline: Option<int>
    /** The stopwatch (app.js:157-160). */
    var stopwatchElapsed: nat
    var stopwatchRunning: bool
    var stopwatchHistory: seq<HistoryEntry>
    /** `currentFocusedIndex` (app.js:279). */
    var focusedIndex: int
    /** What `localStorage` holds under `callCategories`, `callStats`, `customFields` and
        `stopwatchHistory`. */
    var storedCategories: SavedCategories
    var storedStats: Option<CallStats>
    var storedCustomFields: seq<string>
    var storedHistory: seq<HistoryEntry>

    /** The page before any loading: empty state over whatever storage holds. The empty
        `callStats` object is a fresh aggregate with no date. */
    constructor (savedCategories: SavedCategories, savedStats: Option<CallStats>,
                 savedCustomFields: seq<string>, savedHistory: seq<HistoryEntry>)
      ensures categories == Empty() && stats == Fresh("") && customFields == []
      ensures lastLoggedCall == None && undoDeadline == None
      ensures stopwatchElapsed == 0 && !stopwatchRunning && stopwatchHistory == []
      ensures focusedIndex == -1
      ensures storedCategories == savedCategories && storedStats == savedStats
      ensures storedCustomFields == savedCustomFields && storedHistory == savedHistory
    {
      categories := Empty();
      stats := Fresh("");
      customFields := [];
      lastLoggedCall := None;
      undoDeadline := None;
      stopwatchElapsed := 0;
      stopwatchRunning := false;
      stopwatchHistory := [];
      focusedIndex := -1;
      storedCategories := savedCategories;
      storedStats := savedStats;
      storedCustomFields := savedCustomFields;
      storedHistory := savedHistory;
    }

    // ----- Loading -----

    /** `initCategories` (app.js:300-337): installs what `LoadCategories` prescribes for
        the stored data, merging the missing baseline categories in one by one, and always
        writes the result back. */
    method InitCategories() returns (notice: LoadNotice)
      modifies this`categories, this`storedCategories
      ensures (categories, notice) == LoadCategories(old(storedCategories))
      ensures storedCategories == Parsed(categories)
    {
      match storedCategories {
        case Absent =>
          categories := DefaultCategories();
          notice := NoNotice;
        case Unparsable =>
          categories := DefaultCategories();
          notice := RestoredCorrupted;
        case NotAnObject =>
          categories := DefaultCategories();
          notice := RestoredCorrupted;
        case Parsed(t) =>
          if !HasReadableName(t) {
            categories := DefaultCategories();
            notice := RestoredInvalid;
          } else {
            var merged := t;
            var i := 0;
            while i < |Baseline|
              invariant 0 <= i <= |Baseline|
              invariant AddMissing(merged, Baseline[i..]) == AddMissing(t, Baseline)
            {
              assert Baseline[i..][1..] == Baseline[i + 1..];
              merged := AddIfMissing(merged, Baseline[i]);
              i := i + 1;
            }
            categories := merged;
            notice := NoNotice;
          }
      }
      storedCategories := Parsed(categories);
    }

    /** `loadCallStats` (app.js:614-642): stored statistics are read and, on a new day,
        rolled over and written back; without stored statistics a fresh aggregate is
        started and not written. */
    method LoadCallStats(today: string)
      modifies this`stats, this`storedStats
      ensures old(storedStats).None? ==> stats == Fresh(today) && storedStats == None
      ensures old(storedStats).Some? ==>
        && stats == RolledOver(old(storedStats).value, today)
        && storedStats == (if old(storedStats).value.lastDate != today then Some(stats) else old(storedStats))
    {
      match storedStats
      case None =>
        stats := Fresh(today);
      case Some(saved) =>
        stats := saved;
        if stats.lastDate != today {
          stats := stats.(today := map[], todayInbound := map[], todayOutbound := map[], todayTimestamps := [], lastDate := today);
          storedStats := Some(stats);
        }
    }

    // ----- Logging and undo -----

    /** `logCall` (app.js:1805-1930). The stopwatch is paused first, whatever follows. The
        outcome, tree and statistics are those of `LogCallSpec`; a new subcategory is
        written to storage as soon as it is created, and a logged call is written, takes
        the undo slot and restarts the 60-second timeout. */
    method LogCall(mainKey: string, subInput: string, inboundValues: seq<string>, outboundValues: seq<string>,
                   timestamp: string, now: int) returns (r: Result<LoggedCall, Error>)
      modifies this`stopwatchRunning, this`categories, this`storedCategories, this`stats, this`storedStats
      modifies this`lastLoggedCall, this`undoDeadline
      ensures !stopwatchRunning
      ensures var l := LogCallSpec(old(categories), old(stats), mainKey, Trim(subInput), inboundValues, outboundValues, timestamp);
        && r == l.result && categories == l.categories && stats == l.stats
        && storedCategories == (if l.created then Parsed(categories) else old(storedCategories))
      ensures r.Success? ==>
        storedStats == Some(stats) && lastLoggedCall == Some(r.value) && undoDeadline == Some(now + UndoWindowMs)
      ensures r.Failure? ==>
        storedStats == old(storedStats) && lastLoggedCall == old(lastLoggedCall) && undoDeadline == old(undoDeadline)
    {
      var t0 := categories;
      var s0 := stats;
      var l := LogCallOn(t0, s0, mainKey, Trim(subInput), inboundValues, outboundValues, timestamp);
      if stopwatchRunning {
        stopwatchRunning := false;
      }
      categories := l.categories;
      if l.created {
        storedCategories := Parsed(categories);
      }
      stats := l.stats;
      r := l.result;
      if r.Success? {
        lastLoggedCall := Some(r.value);
        storedStats := Some(stats);
        undoDeadline := Some(now + UndoWindowMs);
      }
    }

    /** `undoLastCall` (app.js:1932-1975): with nothing in the slot, nothing happens;
        otherwise the statistics are reversed for the call in the slot and written, and the
        slot and its timeout are cleared, so a second undo finds nothing. */
    method UndoLastCall() returns (r: Result<LoggedCall, Error>)
      modifies this`stats, this`storedStats, this`lastLoggedCall, this`undoDeadline
      ensures old(lastLoggedCall).None? ==>
        r == Failure(NothingToUndo) && stats == old(stats) && storedStats == old(storedStats) && undoDeadline == old(undoDeadline)
      ensures old(lastLoggedCall).Some? ==>
        && r == Success(old(lastLoggedCall).value)
        && stats == Reversed(old(stats), old(lastLoggedCall).value)
        && storedStats == Some(stats)
        && undoDeadline == None
      ensures lastLoggedCall == None
    {
      match lastLoggedCall
      case None =>
        r := Failure(NothingToUndo);
      case Some(call) =>
        stats := ReverseCall(stats, call);
        storedStats := Some(stats);
        lastLoggedCall := None;
        undoDeadline := None;
        r := Success(call);
    }

    /** The clock reaching `now`: once the 60-second timeout is due it fires and empties
        the undo slot (app.js:1900-1904); before that nothing changes. */
    method ClockAdvances(now: int)
      modifies this`lastLoggedCall, this`undoDeadline
      ensures old(undoDeadline).Some? && now >= old(undoDeadline).value ==> lastLoggedCall == None && undoDeadline == None
      ensures !(old(undoDeadline).Some? && now >= old(undoDeadline).value) ==>
        lastLoggedCall == old(lastLoggedCall) && undoDeadline == old(undoDeadline)
    {
      if undoDeadline.Some? && now >= undoDeadline.value {
        lastLoggedCall := None;
        undoDeadline := None;
      }
    }

    // ----- Category editor -----

    /** `addNewMainCategory` (app.js:2233-2262): the trimmed name must be non-empty and its
        slug unused; the new category is empty and is written to storage. */
    method AddNewMainCategory(input: string) returns (r: Result<string, Error>)
      modifies this`categories, this`storedCategories
      ensures var name := Trim(input);
        r == (if name == "" then Failure(EmptyName)
              else if GenerateKey(name) in old(categories).items then Failure(DuplicateKey)
              else Success(GenerateKey(name)))
      ensures r.Success? ==>
        categories == Put(old(categories), r.value, Category(Trim(input), Empty())) && storedCategories == Parsed(categories)
      ensures r.Failure? ==> categories == old(categories) && storedCategories == old(storedCategories)
    {
      var name := Trim(input);
      if name == "" {
        return Failure(EmptyName);
      }
      var key := GenerateKey(name);
      if key in categories.items {
        return Failure(DuplicateKey);
      }
      categories := Put(categories, key, Category(name, Empty()));
      storedCategories := Parsed(categories);
      r := Success(key);
    }

    /** `addNewSubcategory` (app.js:2264-2293): a main category must be chosen and present
        and the trimmed name non-empty and its slug unused under it; the subcategory gets
        the trimmed template. */
    method AddNewSubcategory(mainKey: string, nameInput: string, templateInput: string) returns (r: Result<string, Error>)
      modifies this`categories, this`storedCategories
      ensures var name := Trim(nameInput);
        r == (if mainKey == "" then Failure(NoMainCategory)
              else if name == "" then Failure(EmptyName)
              else if mainKey !in old(categories).items then Failure(UnknownCategory)
              else if GenerateKey(name) in old(categories).items[mainKey].subcategories.items then Failure(DuplicateKey)
              else Success(GenerateKey(name)))
      ensures r.Success? ==>
        mainKey in old(categories).items
        && categories == WithSubcategory(old(categories), mainKey, r.value, Subcategory(Trim(nameInput), Trim(templateInput)))
        && storedCategories == Parsed(categories)
      ensures r.Failure? ==> categories == old(categories) && storedCategories == old(storedCategories)
    {
      var name := Trim(nameInput);
      var template := Trim(templateInput);
      if mainKey == "" {
        return Failure(NoMainCategory);
      }
      if name == "" {
        return Failure(EmptyName);
      }
      var key := GenerateKey(name);
      if mainKey !in categories.items {
        return Failure(UnknownCategory);
      }
      if key in categories.items[mainKey].subcategories.items {
        return Failure(DuplicateKey);
      }
      categories := WithSubcategory(categories, mainKey, key, Subcategory(name, template));
      storedCategories := Parsed(categories);
      r := Success(key);
    }

    /** `updateSubcategory` (app.js:2295-2300): the template is replaced by the edited text
        as it stands; the name is kept. */
    method UpdateSubcategory(mainKey: string, subKey: string, text: string) returns (r: Result<(), Error>)
      modifies this`categories, this`storedCategories
      ensures r.Failure? <==> !(mainKey in old(categories).items && subKey in old(categories).items[mainKey].subcategories.items)
      ensures r.Success? ==>
        && mainKey in old(categories).items && subKey in old(categories).items[mainKey].subcategories.items
        && categories == WithSubcategory(old(categories), mainKey, subKey,
             Subcategory(old(categories).items[mainKey].subcategories.items[subKey].name, text))
        && storedCategories == Parsed(categories)
      ensures r.Failure? ==> r.error == UnknownCategory && categories == old(categories) && storedCategories == old(storedCategories)
    {
      if mainKey !in categories.items || subKey !in categories.items[mainKey].subcategories.items {
        return Failure(UnknownCategory);
      }
      var sub := categories.items[mainKey].subcategories.items[subKey];
      categories := WithSubcategory(categories, mainKey, subKey, Subcategory(sub.name, text));
      storedCategories := Parsed(categories);
      r := Success(());
    }

    /** `deleteSubcategory` (app.js:2302-2311): after confirmation the subcategory goes;
        its statistics stay. */
    method DeleteSubcategory(mainKey: string, subKey: string, confirmed: bool) returns (r: Result<bool, Error>)
      modifies this`categories, this`storedCategories
      ensures r.Failure? <==> !(mainKey in old(categories).items && subKey in old(categories).items[mainKey].subcategories.items)
      ensures r == Success(true) ==>
        mainKey in old(categories).items
        && categories == WithoutSubcategory(old(categories), mainKey, subKey) && storedCategories == Parsed(categories)
      ensures r.Success? ==> (r.value <==> confirmed)
      ensures r != Success(true) ==> categories == old(categories) && storedCategories == old(storedCategories)
    {
      if mainKey !in categories.items || subKey !in categories.items[mainKey].subcategories.items {
        return Failure(UnknownCategory);
      }
      if !confirmed {
        return Success(false);
      }
      categories := WithoutSubcategory(categories, mainKey, subKey);
      storedCategories := Parsed(categories);
      r := Success(true);
    }

    /** `deleteMainCategory` (app.js:2313-2334): two confirmations, then the main
        category goes with all its subcategories; the statistics are not touched. */
    method DeleteMainCategory(mainKey: string, firstConfirmed: bool, secondConfirmed: bool) returns (r: Result<bool, Error>)
      modifies this`categories, this`storedCategories
      ensures r.Failure? <==> mainKey !in old(categories).items
      ensures r.Success? ==> (r.value <==> firstConfirmed && secondConfirmed)
      ensures r == Success(true) ==> categories == Remove(old(categories), mainKey) && storedCategories == Parsed(categories)
      ensures r != Success(true) ==> categories == old(categories) && storedCategories == old(storedCategories)
    {
      if mainKey !in categories.items {
        return Failure(UnknownCategory);
      }
      if !firstConfirmed || !secondConfirmed {
        return Success(false);
      }
      categories := Remove(categories, mainKey);
      storedCategories := Parsed(categories);
      r := Success(true);
    }

    // ----- Custom fields -----

    /** `addCustomField` (app.js:1690-1708): the trimmed name must be non-empty and differ,
        ignoring case, from every existing field's name; it is appended and written. */
    method AddCustomField(input: string) returns (r: Result<string, Error>)
      modifies this`customFields, this`storedCustomFields
      ensures var name := Trim(input);
        r == (if name == "" then Failure(EmptyName)
              else if exists i :: 0 <= i < |old(customFields)| && Lower(old(customFields)[i]) == Lower(name) then Failure(DuplicateKey)
              else Success(name))
      ensures r.Success? ==> customFields == old(customFields) + [r.value] && storedCustomFields == customFields
      ensures r.Failure? ==> customFields == old(customFields) && storedCustomFields == old(storedCustomFields)
    {
      var name := Trim(input);
      if name == "" {
        return Failure(EmptyName);
      }
      var taken := HasFieldNamed(customFields, name);
      if taken {
        return Failure(DuplicateKey);
      }
      customFields := customFields + [name];
      storedCustomFields := customFields;
      r := Success(name);
    }

    /** `deleteCustomField` (app.js:1710-1717): after confirmation the field at `index`
        goes and the rest keep their order. */
    method DeleteCustomField(index: int, confirmed: bool) returns (r: Result<bool, Error>)
      modifies this`customFields, this`storedCustomFields
      ensures r.Failure? <==> !(0 <= index < |old(customFields)|)
      ensures r.Success? ==> (r.value <==> confirmed)
      ensures r == Success(true) ==>
        0 <= index < |old(customFields)|
        && customFields == old(customFields)[..index] + old(customFields)[index + 1..]
        && storedCustomFields == customFields
      ensures r != Success(true) ==> customFields == old(customFields) && storedCustomFields == old(storedCustomFields)
    {
      if !(0 <= index < |customFields|) {
        return Failure(NoSuchField);
      }
      if !confirmed {
        return Success(false);
      }
      customFields := customFields[..index] + customFields[index + 1..];
      storedCustomFields := customFields;
      r := Success(true);
    }

    // ----- Stopwatch -----

    /** `startStopwatch` (app.js:943-954). */
    method StartStopwatch()
      modifies this`stopwatchRunning
      ensures stopwatchRunning
    {
      if !stopwatchRunning {
        stopwatchRunning := true;
      }
    }

    /** `pauseStopwatch` (app.js:956-963). */
    method PauseStopwatch()
      modifies this`stopwatchRunning
      ensures !stopwatchRunning
    {
      if stopwatchRunning {
        stopwatchRunning := false;
      }
    }

    /** One tick of the one-second interval, which exists only while running. */
    method StopwatchTick()
      modifies this`stopwatchElapsed
      ensures stopwatchElapsed == if stopwatchRunning then old(stopwatchElapsed) + 1 else old(stopwatchElapsed)
    {
      if stopwatchRunning {
        stopwatchElapsed := stopwatchElapsed + 1;
      }
    }

    /** `resetStopwatch` (app.js:965-992): a run with elapsed time is recorded at the front
        of the history under the trimmed name or "Unnamed Task", keeping at most 20
        entries, and written; then the stopwatch stops at 0. */
    method ResetStopwatch(nameInput: string, timestamp: string)
      modifies this`stopwatchHistory, this`storedHistory, this`stopwatchRunning, this`stopwatchElapsed
      ensures old(stopwatchElapsed) > 0 ==>
        && stopwatchHistory == Recorded(old(stopwatchHistory), HistoryEntry(TaskName(nameInput), old(stopwatchElapsed), timestamp))
        && storedHistory == stopwatchHistory
        && |stopwatchHistory| <= HistoryLimit
      ensures old(stopwatchElapsed) == 0 ==> stopwatchHistory == old(stopwatchHistory) && storedHistory == old(storedHistory)
      ensures !stopwatchRunning && stopwatchElapsed == 0
    {
      if stopwatchElapsed > 0 {
        var entry := HistoryEntry(TaskName(nameInput), stopwatchElapsed, timestamp);
        stopwatchHistory := [entry] + stopwatchHistory;
        if |stopwatchHistory| > HistoryLimit {
          stopwatchHistory := stopwatchHistory[..HistoryLimit];
        }
        storedHistory := stopwatchHistory;
      }
      PauseStopwatch();
      stopwatchElapsed := 0;
    }

    // ----- Dropdown focus -----

    /** `handleSubcategoryKeydown` (app.js:411-498) on a dropdown showing `count` entries. */
    method SubcategoryKeyDown(key: Focus.Key, shown: bool, count: nat) returns (o: Focus.Outcome)
      modifies this`focusedIndex
      ensures o == Focus.KeyDown(old(focusedIndex), key, shown, count) && focusedIndex == o.index
      ensures Focus.InRange(old(focusedIndex), count) ==> Focus.InRange(focusedIndex, count)
    {
      o := Focus.KeyDown(focusedIndex, key, shown, count);
      if Focus.InRange(focusedIndex, count) {
        Focus.KeyDownKeepsRange(focusedIndex, key, shown, count);
      }
      focusedIndex := o.index;
    }

    /** Typing in the subcategory field (app.js:406) or closing the dropdown (app.js:562)
        clears the focus. */
    method ClearFocus()
      modifies this`focusedIndex
      ensures focusedIndex == -1
    {
      focusedIndex := -1;
    }
  }

  /** The minute fields of both groups hold text exactly when one of the groups does. */
  lemma EnteredInEither(a: seq<string>, b: seq<string>)
    ensures AnyEntered(a + b) <==> AnyEntered(a) || AnyEntered(b)
  {
    if AnyEntered(a + b) {
      var i :| 0 <= i < |a + b| && (a + b)[i] != "";
      if i >= |a| {
        assert b[i - |a|] == (a + b)[i];
      }
    }
    if AnyEntered(a) {
      var i :| 0 <= i < |a| && a[i] != "";
      assert (a + b)[i] == a[i];
    }
    if AnyEntered(b) {
      var i :| 0 <= i < |b| && b[i] != "";
      assert (a + b)[|a| + i] == b[i];
    }
  }
}

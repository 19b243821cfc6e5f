/** `calculateCategoryStats(isToday)` (app.js:231-262): walks the category tree main
    category by main category and subcategory by subcategory, reads each pair's figures
    under its statistics key and accumulates the grand total of calls, the calls per main
    category and a detail entry per main category. The walk is the method; the folds below
    say what it computes, and the lemmas say what those folds mean. */
module Report {
  import opened Dict
  import opened Categories
  import opened Stats

  datatype SubDetail = SubDetail(name: string, stats: Figures)

  datatype MainDetail = MainDetail(name: string, subcategories: map<string, SubDetail>, totals: Figures)

  datatype CategoryReport = CategoryReport(
    totalCalls: int,
    mainCategoryCalls: map<string, int>,
    categoryDetails: map<string, MainDetail>)

  function Plus(a: Figures, b: Figures): Figures
  {
    Figures(a.calls + b.calls, a.inbound + b.inbound, a.outbound + b.outbound)
  }

  const Zero := Figures(0, 0, 0)

  /** The figures of the subcategories `ks` of `mainKey`, added up in order. */
  function SubSum(ks: seq<string>, mainKey: string, s: CallStats, isToday: bool): Figures
  {
    if ks == [] then Zero
    else Plus(SubSum(ks[..|ks| - 1], mainKey, s, isToday), StatsFor(s, StatKey(mainKey, ks[|ks| - 1]), isToday))
  }

  /** The totals of one main category over all its subcategories. */
  function MainTotals(t: Tree, mainKey: string, s: CallStats, isToday: bool): Figures
    requires mainKey in t.items
  {
    SubSum(t.items[mainKey].subcategories.keys, mainKey, s, isToday)
  }

  /** The calls of main category `k`; a key outside the tree has none. */
  function CallsOf(t: Tree, k: string, s: CallStats, isToday: bool): int
  {
    if k in t.items then MainTotals(t, k, s, isToday).calls else 0
  }

  /** The calls of the main categories `ks`, added up in order. */
  function CallsOver(t: Tree, ks: seq<string>, s: CallStats, isToday: bool): int
  {
    if ks == [] then 0
    else CallsOver(t, ks[..|ks| - 1], s, isToday) + CallsOf(t, ks[|ks| - 1], s, isToday)
  }

  /** The detail entries of the first `n` subcategories of `mainKey`. */
  function SubDetailsOver(subs: Dict<Subcategory>, n: nat, mainKey: string, s: CallStats, isToday: bool): map<string, SubDetail>
    requires n <= |subs.keys|
  {
    if n == 0 then map[]
    else
      var k := subs.keys[n - 1];
      SubDetailsOver(subs, n - 1, mainKey, s, isToday)[k := SubDetail(subs.items[k].name, StatsFor(s, StatKey(mainKey, k), isToday))]
  }

  function DetailOf(t: Tree, mainKey: string, s: CallStats, isToday: bool): MainDetail
    requires mainKey in t.items
  {
    var c := t.items[mainKey];
    MainDetail(c.name, SubDetailsOver(c.subcategories, |c.subcategories.keys|, mainKey, s, isToday), MainTotals(t, mainKey, s, isToday))
  }

  /** `f` at each of the keys `ks`, as a dictionary. */
  function KeyedBy(ks: seq<string>, f: string -> int): map<string, int>
  {
    if ks == [] then map[] else KeyedBy(ks[..|ks| - 1], f)[ks[|ks| - 1] := f(ks[|ks| - 1])]
  }

  function CallsOfFn(t: Tree, s: CallStats, isToday: bool): string -> int
  {
    k => CallsOf(t, k, s, isToday)
  }

  /** The per-main-category calls of the first `n` main categories. */
  function MainCallsOver(t: Tree, n: nat, s: CallStats, isToday: bool): map<string, int>
    requires n <= |t.keys|
  {
    KeyedBy(t.keys[..n], CallsOfFn(t, s, isToday))
  }

  /** The detail entries of the first `n` main categories. */
  function DetailsOver(t: Tree, n: nat, s: CallStats, isToday: bool): map<string, MainDetail>
    requires n <= |t.keys|
  {
    if n == 0 then map[]
    else
      var k := t.keys[n - 1];
      DetailsOver(t, n - 1, s, isToday)[k := DetailOf(t, k, s, isToday)]
  }

  /** The report the walk produces. */
  function ReportOf(t: Tree, s: CallStats, isToday: bool): CategoryReport
  {
    CategoryReport(CallsOver(t, t.keys, s, isToday), MainCallsOver(t, |t.keys|, s, isToday), DetailsOver(t, |t.keys|, s, isToday))
  }

  /** The inner `forEach` of the walk, over the subcategories of `mainKey`: each pair's
      figures go into the grand total, the main category's call count, its totals and its
      detail entry. The entry `mainCategoryCalls[mainKey]`, which starts at 0, is carried
      as `mainCalls` and written back by the outer walk. */
  method WalkSubcategories(subs: Dict<Subcategory>, mainKey: string, s: CallStats, isToday: bool, totalCalls0: int)
    returns (totalCalls: int, mainCalls: int, totals: Figures, subDetails: map<string, SubDetail>)
    ensures totals == SubSum(subs.keys, mainKey, s, isToday)
    ensures totalCalls == totalCalls0 + totals.calls
    ensures mainCalls == totals.calls
    ensures subDetails == SubDetailsOver(subs, |subs.keys|, mainKey, s, isToday)
  {
    totalCalls := totalCalls0;
    mainCalls := 0;
    totals := Zero;
    subDetails := map[];
    var j := 0;
    while j < |subs.keys|
      invariant 0 <= j <= |subs.keys|
      invariant totals == SubSum(subs.keys[..j], mainKey, s, isToday)
      invariant totalCalls == totalCalls0 + totals.calls
      invariant mainCalls == totals.calls
      invariant subDetails == SubDetailsOver(subs, j, mainKey, s, isToday)
    {
      var subKey := subs.keys[j];
      var stats := StatsFor(s, StatKey(mainKey, subKey), isToday);
      totalCalls := totalCalls + stats.calls;
      mainCalls := mainCalls + stats.calls;
      totals := Plus(totals, stats);
      subDetails := subDetails[subKey := SubDetail(subs.items[subKey].name, stats)];
      SubSumStep(subs.keys, j, mainKey, s, isToday);
      SubDetailsStep(subs, j, mainKey, s, isToday);
      j := j + 1;
    }
    assert subs.keys[..j] == subs.keys;
  }

  /** A second assignment to the same key replaces the first. */
  lemma Overwrite(m: map<string, int>, k: string, a: int, b: int)
    ensures m[k := a][k := b] == m[k := b]
  {
  }

  /** The detail entries of one more subcategory add that subcategory's entry. */
  lemma SubDetailsStep(subs: Dict<Subcategory>, j: nat, mainKey: string, s: CallStats, isToday: bool)
    requires j < |subs.keys|
    ensures var k := subs.keys[j];
      SubDetailsOver(subs, j + 1, mainKey, s, isToday) == SubDetailsOver(subs, j, mainKey, s, isToday)[k := SubDetail(subs.items[k].name, StatsFor(s, StatKey(mainKey, k), isToday))]
  {
  }

  /** The figures over one more subcategory add that subcategory's figures. */
  lemma SubSumStep(ks: seq<string>, j: nat, mainKey: string, s: CallStats, isToday: bool)
    requires j < |ks|
    ensures SubSum(ks[..j + 1], mainKey, s, isToday) == Plus(SubSum(ks[..j], mainKey, s, isToday), StatsFor(s, StatKey(mainKey, ks[j]), isToday))
  {
    assert ks[..j + 1][..j] == ks[..j];
  }

  /** What one round of the outer walk adds to each of the three folds. */
  lemma OuterStep(t: Tree, i: nat, s: CallStats, isToday: bool)
    requires i < |t.keys|
    ensures var k := t.keys[i];
      && CallsOver(t, t.keys[..i + 1], s, isToday) == CallsOver(t, t.keys[..i], s, isToday) + MainTotals(t, k, s, isToday).calls
      && MainCallsOver(t, i + 1, s, isToday) == MainCallsOver(t, i, s, isToday)[k := MainTotals(t, k, s, isToday).calls]
      && DetailsOver(t, i + 1, s, isToday) == DetailsOver(t, i, s, isToday)[k := DetailOf(t, k, s, isToday)]
  {
    assert t.keys[..i + 1][..i] == t.keys[..i];
  }

  /** A round of the walk that starts from the folds over the first `i` main categories
      ends at the folds over the first `i + 1`. */
  lemma OuterRound(t: Tree, i: nat, s: CallStats, isToday: bool,
                   tc0: int, mcc0: map<string, int>, cd0: map<string, MainDetail>,
                   tc: int, mcc: map<string, int>, cd: map<string, MainDetail>)
    requires i < |t.keys|
    requires tc0 == CallsOver(t, t.keys[..i], s, isToday)
    requires mcc0 == MainCallsOver(t, i, s, isToday)
    requires cd0 == DetailsOver(t, i, s, isToday)
    requires tc == tc0 + MainTotals(t, t.keys[i], s, isToday).calls
    requires mcc == mcc0[t.keys[i] := MainTotals(t, t.keys[i], s, isToday).calls]
    requires cd == cd0[t.keys[i] := DetailOf(t, t.keys[i], s, isToday)]
    ensures tc == CallsOver(t, t.keys[..i + 1], s, isToday)
    ensures mcc == MainCallsOver(t, i + 1, s, isToday)
    ensures cd == DetailsOver(t, i + 1, s, isToday)
  {
    OuterStep(t, i, s, isToday);
  }

  /** One round of the outer `forEach`, for main category `mainKey`: its call count is
      reset to 0 and its detail entry started, then the inner walk fills both in. */
  method WalkMainCategory(t: Tree, mainKey: string, s: CallStats, isToday: bool,
                          totalCalls0: int, mainCategoryCalls0: map<string, int>, categoryDetails0: map<string, MainDetail>)
    returns (totalCalls: int, mainCategoryCalls: map<string, int>, categoryDetails: map<string, MainDetail>)
    requires mainKey in t.items
    ensures totalCalls == totalCalls0 + MainTotals(t, mainKey, s, isToday).calls
    ensures mainCategoryCalls == mainCategoryCalls0[mainKey := MainTotals(t, mainKey, s, isToday).calls]
    ensures categoryDetails == categoryDetails0[mainKey := DetailOf(t, mainKey, s, isToday)]
  {
    var c := t.items[mainKey];
    var mainCalls, totals, subDetails;
    mainCategoryCalls := mainCategoryCalls0[mainKey := 0];
    totalCalls, mainCalls, totals, subDetails := WalkSubcategories(c.subcategories, mainKey, s, isToday, totalCalls0);
    Overwrite(mainCategoryCalls0, mainKey, 0, mainCalls);
    mainCategoryCalls := mainCategoryCalls[mainKey := mainCalls];
    categoryDetails := categoryDetails0[mainKey := MainDetail(c.name, subDetails, totals)];
  }

  /** The walk of `calculateCategoryStats`: it produces exactly the folds above. */
  method CalculateCategoryStats(t: Tree, s: CallStats, isToday: bool) returns (r: CategoryReport)
    ensures r == ReportOf(t, s, isToday)
  {
    var totalCalls := 0;
    var mainCategoryCalls: map<string, int> := map[];
    var categoryDetails: map<string, MainDetail> := map[];
    var i := 0;
    WalkStart(t, s, isToday);
    while i < |t.keys|
      invariant 0 <= i <= |t.keys|
      invariant totalCalls == CallsOver(t, t.keys[..i], s, isToday)
      invariant mainCategoryCalls == MainCallsOver(t, i, s, isToday)
      invariant categoryDetails == DetailsOver(t, i, s, isToday)
    {
      var k := t.keys[i];
      var tc, mcc, cd := WalkMainCategory(t, k, s, isToday, totalCalls, mainCategoryCalls, categoryDetails);
      OuterRound(t, i, s, isToday, totalCalls, mainCategoryCalls, categoryDetails, tc, mcc, cd);
      totalCalls, mainCategoryCalls, categoryDetails := tc, mcc, cd;
      i := i + 1;
    }
    FullWalk(t, s, isToday);
    r := CategoryReport(totalCalls, mainCategoryCalls, categoryDetails);
  }

  /** Before the walk, the folds are over no main category. */
  lemma WalkStart(t: Tree, s: CallStats, isToday: bool)
    ensures CallsOver(t, t.keys[..0], s, isToday) == 0
    ensures MainCallsOver(t, 0, s, isToday) == map[]
    ensures DetailsOver(t, 0, s, isToday) == map[]
  {
    assert t.keys[..0] == [];
  }

  /** The walk over all the main categories is the report. */
  lemma FullWalk(t: Tree, s: CallStats, isToday: bool)
    ensures ReportOf(t, s, isToday)
      == CategoryReport(CallsOver(t, t.keys[..|t.keys|], s, isToday), MainCallsOver(t, |t.keys|, s, isToday), DetailsOver(t, |t.keys|, s, isToday))
  {
    assert t.keys[..|t.keys|] == t.keys;
  }

  // ----- What the report means -----

  lemma {:induction false} SubDetailsOverSpec(subs: Dict<Subcategory>, n: nat, mainKey: string, s: CallStats, isToday: bool)
    requires n <= |subs.keys|
    ensures forall k {:trigger k in SubDetailsOver(subs, n, mainKey, s, isToday)} ::
      k in SubDetailsOver(subs, n, mainKey, s, isToday) <==> k in subs.keys[..n]
    ensures forall k {:trigger SubDetailsOver(subs, n, mainKey, s, isToday)[k]} :: k in SubDetailsOver(subs, n, mainKey, s, isToday) ==>
      SubDetailsOver(subs, n, mainKey, s, isToday)[k] == SubDetail(subs.items[k].name, StatsFor(s, StatKey(mainKey, k), isToday))
  {
    if n > 0 {
      SubDetailsOverSpec(subs, n - 1, mainKey, s, isToday);
      KeysStep(subs.keys, n);
      var prev := SubDetailsOver(subs, n - 1, mainKey, s, isToday);
      var last := subs.keys[n - 1];
      var d := SubDetail(subs.items[last].name, StatsFor(s, StatKey(mainKey, last), isToday));
      var m := SubDetailsOver(subs, n, mainKey, s, isToday);
      assert m == prev[last := d];
      UpdateSpec(prev, last, d, subs.keys[..n - 1]);
      forall k | k in m ensures m[k] == SubDetail(subs.items[k].name, StatsFor(s, StatKey(mainKey, k), isToday)) {
        if k != last {
          assert m[k] == prev[k];
        }
      }
    }
  }

  lemma {:induction false} KeyedBySpec(ks: seq<string>, f: string -> int)
    ensures var m := KeyedBy(ks, f);
      && (forall k :: k in m <==> k in ks)
      && (forall k :: k in m ==> m[k] == f(k))
  {
    if ks != [] {
      KeyedBySpec(ks[..|ks| - 1], f);
      assert ks == ks[..|ks| - 1] + [ks[|ks| - 1]];
    }
  }

  lemma MainCallsOverSpec(t: Tree, n: nat, s: CallStats, isToday: bool)
    requires n <= |t.keys|
    ensures var m := MainCallsOver(t, n, s, isToday);
      && (forall k :: k in m <==> k in t.keys[..n])
      && (forall k :: k in m ==> k in t.items && m[k] == CallsOf(t, k, s, isToday))
  {
    KeyedBySpec(t.keys[..n], CallsOfFn(t, s, isToday));
  }

  lemma {:induction false} DetailsOverSpec(t: Tree, n: nat, s: CallStats, isToday: bool)
    requires n <= |t.keys|
    ensures forall k {:trigger k in DetailsOver(t, n, s, isToday)} ::
      k in DetailsOver(t, n, s, isToday) <==> k in t.keys[..n]
    ensures forall k {:trigger DetailsOver(t, n, s, isToday)[k]} :: k in DetailsOver(t, n, s, isToday) ==>
      k in t.items && DetailsOver(t, n, s, isToday)[k] == DetailOf(t, k, s, isToday)
  {
    if n > 0 {
      DetailsOverSpec(t, n - 1, s, isToday);
      KeysStep(t.keys, n);
      var prev := DetailsOver(t, n - 1, s, isToday);
      var last := t.keys[n - 1];
      var d := DetailOf(t, last, s, isToday);
      var m := DetailsOver(t, n, s, isToday);
      assert m == prev[last := d];
      UpdateSpec(prev, last, d, t.keys[..n - 1]);
      forall k | k in m ensures k in t.items && m[k] == DetailOf(t, k, s, isToday) {
        if k != last {
          assert m[k] == prev[k];
        }
      }
    }
  }

  /** The first `n` keys are the first `n - 1` and then the `n`-th. */
  lemma KeysStep(ks: seq<string>, n: nat)
    requires 0 < n <= |ks|
    ensures forall k :: k in ks[..n] <==> k in ks[..n - 1] || k == ks[n - 1]
  {
    assert ks[..n] == ks[..n - 1] + [ks[n - 1]];
  }

  /** A map updated at `last` holds `last` and what it held before, with the old values
      elsewhere. */
  lemma UpdateSpec<V>(prev: map<string, V>, last: string, d: V, ks: seq<string>)
    requires forall k :: k in prev <==> k in ks
    ensures forall k :: k in prev[last := d] <==> k in ks || k == last
    ensures forall k :: k in prev[last := d] && k != last ==> prev[last := d][k] == prev[k]
  {
  }

  /** The report has one call count and one detail entry per main category of the tree,
      the call count agreeing with the entry's totals, and each entry carries the main
      category's display name. */
  lemma ReportMains(t: Tree, s: CallStats, isToday: bool)
    ensures var r := ReportOf(t, s, isToday);
      && r.mainCategoryCalls.Keys == t.items.Keys
      && r.categoryDetails.Keys == t.items.Keys
      && (forall k :: k in t.items ==> r.mainCategoryCalls[k] == r.categoryDetails[k].totals.calls)
      && (forall k :: k in t.items ==> r.categoryDetails[k].name == t.items[k].name)
  {
    ReportCalls(t, s, isToday);
    ReportDetails(t, s, isToday);
  }

  lemma ReportCalls(t: Tree, s: CallStats, isToday: bool)
    ensures var r := ReportOf(t, s, isToday);
      && r.mainCategoryCalls.Keys == t.items.Keys
      && forall k :: k in t.items ==> r.mainCategoryCalls[k] == CallsOf(t, k, s, isToday)
  {
    assert t.keys[..|t.keys|] == t.keys;
    MainCallsOverSpec(t, |t.keys|, s, isToday);
  }

  lemma ReportDetails(t: Tree, s: CallStats, isToday: bool)
    ensures var r := ReportOf(t, s, isToday);
      && r.categoryDetails.Keys == t.items.Keys
      && forall k :: k in t.items ==> r.categoryDetails[k] == DetailOf(t, k, s, isToday)
  {
    assert t.keys[..|t.keys|] == t.keys;
    DetailsOverSpec(t, |t.keys|, s, isToday);
  }

  /** Each detail entry has one entry per subcategory, holding that pair's figures. */
  lemma ReportSubcategories(t: Tree, s: CallStats, isToday: bool, k: string)
    requires k in t.items
    ensures k in ReportOf(t, s, isToday).categoryDetails
    ensures var d := ReportOf(t, s, isToday).categoryDetails[k].subcategories;
      && d.Keys == t.items[k].subcategories.items.Keys
      && (forall j :: j in d ==> d[j] == SubDetail(t.items[k].subcategories.items[j].name, StatsFor(s, StatKey(k, j), isToday)))
  {
    ReportDetails(t, s, isToday);
    var subs := t.items[k].subcategories;
    assert subs.keys[..|subs.keys|] == subs.keys;
    SubDetailsOverSpec(subs, |subs.keys|, k, s, isToday);
  }

  /** The values of `m` at the keys `ks`, added up, an absent key counting 0. */
  function SumOver(m: map<string, int>, ks: seq<string>): int
  {
    if ks == [] then 0 else SumOver(m, ks[..|ks| - 1]) + Get(m, ks[|ks| - 1])
  }

  lemma {:induction false} CallsOverIsSum(t: Tree, ks: seq<string>, m: map<string, int>, s: CallStats, isToday: bool)
    requires forall k :: k in ks ==> Get(m, k) == CallsOf(t, k, s, isToday)
    ensures CallsOver(t, ks, s, isToday) == SumOver(m, ks)
  {
    if ks != [] {
      CallsOverIsSum(t, ks[..|ks| - 1], m, s, isToday);
    }
  }

  /** The grand total is the sum of the per-main-category calls, over the tree's order. */
  lemma TotalIsSumOfMainCalls(t: Tree, s: CallStats, isToday: bool)
    ensures var r := ReportOf(t, s, isToday);
      r.totalCalls == SumOver(r.mainCategoryCalls, t.keys)
  {
    assert t.keys[..|t.keys|] == t.keys;
    MainCallsOverSpec(t, |t.keys|, s, isToday);
    CallsOverIsSum(t, t.keys, MainCallsOver(t, |t.keys|, s, isToday), s, isToday);
  }

  /** Two aggregates that agree on the statistics key of every pair in the tree. */
  predicate AgreeOnTree(t: Tree, s1: CallStats, s2: CallStats, isToday: bool)
  {
    forall m, j :: m in t.items && j in t.items[m].subcategories.items ==>
      StatsFor(s1, StatKey(m, j), isToday) == StatsFor(s2, StatKey(m, j), isToday)
  }

  lemma {:induction false} SubSumAgree(t: Tree, m: string, ks: seq<string>, s1: CallStats, s2: CallStats, isToday: bool)
    requires m in t.items && AgreeOnTree(t, s1, s2, isToday)
    requires forall j :: j in ks ==> j in t.items[m].subcategories.items
    ensures SubSum(ks, m, s1, isToday) == SubSum(ks, m, s2, isToday)
  {
    if ks != [] {
      var last := ks[|ks| - 1];
      assert last in t.items[m].subcategories.items;
      assert StatsFor(s1, StatKey(m, last), isToday) == StatsFor(s2, StatKey(m, last), isToday);
      SubSumAgree(t, m, ks[..|ks| - 1], s1, s2, isToday);
    }
  }

  lemma {:induction false} CallsOverAgree(t: Tree, ks: seq<string>, s1: CallStats, s2: CallStats, isToday: bool)
    requires AgreeOnTree(t, s1, s2, isToday)
    ensures CallsOver(t, ks, s1, isToday) == CallsOver(t, ks, s2, isToday)
  {
    if ks != [] {
      var last := ks[|ks| - 1];
      if last in t.items {
        SubSumAgree(t, last, t.items[last].subcategories.keys, s1, s2, isToday);
      }
      CallsOverAgree(t, ks[..|ks| - 1], s1, s2, isToday);
    }
  }

  lemma DetailAgree(t: Tree, k: string, s1: CallStats, s2: CallStats, isToday: bool)
    requires k in t.items && AgreeOnTree(t, s1, s2, isToday)
    ensures DetailOf(t, k, s1, isToday) == DetailOf(t, k, s2, isToday)
  {
    var subs := t.items[k].subcategories;
    SubSumAgree(t, k, subs.keys, s1, s2, isToday);
    SubDetailsOverSpec(subs, |subs.keys|, k, s1, isToday);
    SubDetailsOverSpec(subs, |subs.keys|, k, s2, isToday);
    var d1 := SubDetailsOver(subs, |subs.keys|, k, s1, isToday);
    var d2 := SubDetailsOver(subs, |subs.keys|, k, s2, isToday);
    forall j | j in d1 ensures d1[j] == d2[j] {
      assert j in subs.items;
      assert StatsFor(s1, StatKey(k, j), isToday) == StatsFor(s2, StatKey(k, j), isToday);
    }
    assert d1 == d2;
  }

  /** Statistics filed under keys that no pair of the tree produces (orphans left behind by
      a deleted category) do not show in the report: the report depends only on the
      figures of the tree's own pairs. */
  lemma ReportIgnoresOrphans(t: Tree, s1: CallStats, s2: CallStats, isToday: bool)
    requires AgreeOnTree(t, s1, s2, isToday)
    ensures ReportOf(t, s1, isToday) == ReportOf(t, s2, isToday)
  {
    CallsOverAgree(t, t.keys, s1, s2, isToday);
    MainCallsAgree(t, s1, s2, isToday);
    DetailsAgree(t, s1, s2, isToday);
  }

  lemma MainCallsAgree(t: Tree, s1: CallStats, s2: CallStats, isToday: bool)
    requires AgreeOnTree(t, s1, s2, isToday)
    ensures ReportOf(t, s1, isToday).mainCategoryCalls == ReportOf(t, s2, isToday).mainCategoryCalls
  {
    ReportCalls(t, s1, isToday);
    ReportCalls(t, s2, isToday);
    forall k | k in t.items ensures CallsOf(t, k, s1, isToday) == CallsOf(t, k, s2, isToday) {
      SubSumAgree(t, k, t.items[k].subcategories.keys, s1, s2, isToday);
    }
  }

  lemma DetailsAgree(t: Tree, s1: CallStats, s2: CallStats, isToday: bool)
    requires AgreeOnTree(t, s1, s2, isToday)
    ensures ReportOf(t, s1, isToday).categoryDetails == ReportOf(t, s2, isToday).categoryDetails
  {
    ReportDetails(t, s1, isToday);
    ReportDetails(t, s2, isToday);
    forall k | k in t.items ensures DetailOf(t, k, s1, isToday) == DetailOf(t, k, s2, isToday) {
      DetailAgree(t, k, s1, s2, isToday);
    }
  }

  /** How many of the subcategory keys `ks` of `m` file under `key`. */
  function Hits(ks: seq<string>, m: string, key: string): nat
  {
    if ks == [] then 0 else Hits(ks[..|ks| - 1], m, key) + (if StatKey(m, ks[|ks| - 1]) == key then 1 else 0)
  }

  /** The subcategory keys of main category `k`; none for a key outside the tree. */
  function SubKeysOf(t: Tree, k: string): seq<string>
  {
    if k in t.items then t.items[k].subcategories.keys else []
  }

  /** How many pairs of the main categories `ks` file under `key`. */
  function TreeHits(t: Tree, ks: seq<string>, key: string): nat
  {
    if ks == [] then 0
    else TreeHits(t, ks[..|ks| - 1], key) + Hits(SubKeysOf(t, ks[|ks| - 1]), ks[|ks| - 1], key)
  }

  lemma {:induction false} SubSumCommit(ks: seq<string>, m: string, s: CallStats, key: string, inbound: int, outbound: int, ts: string, isToday: bool)
    ensures SubSum(ks, m, Committed(s, key, inbound, outbound, ts), isToday).calls == SubSum(ks, m, s, isToday).calls + Hits(ks, m, key)
  {
    if ks != [] {
      SubSumCommit(ks[..|ks| - 1], m, s, key, inbound, outbound, ts, isToday);
      var last := ks[|ks| - 1];
      if StatKey(m, last) != key {
        CommitStatsFor(s, key, inbound, outbound, ts, StatKey(m, last), isToday);
      }
    }
  }

  lemma {:induction false} CallsOverCommit(t: Tree, ks: seq<string>, s: CallStats, key: string, inbound: int, outbound: int, ts: string, isToday: bool)
    ensures CallsOver(t, ks, Committed(s, key, inbound, outbound, ts), isToday) == CallsOver(t, ks, s, isToday) + TreeHits(t, ks, key)
  {
    if ks != [] {
      var last := ks[|ks| - 1];
      SubSumCommit(SubKeysOf(t, last), last, s, key, inbound, outbound, ts, isToday);
      CallsOverCommit(t, ks[..|ks| - 1], s, key, inbound, outbound, ts, isToday);
    }
  }

  /** Logging one call raises the reported total by the number of pairs in the tree that
      file under the call's statistics key: by one when the key belongs to a single pair,
      by more when `_` in the keys makes two pairs share it, not at all for an orphan. */
  lemma CommitRaisesTotal(t: Tree, s: CallStats, key: string, inbound: int, outbound: int, ts: string, isToday: bool)
    ensures ReportOf(t, Committed(s, key, inbound, outbound, ts), isToday).totalCalls
      == ReportOf(t, s, isToday).totalCalls + TreeHits(t, t.keys, key)
  {
    CallsOverCommit(t, t.keys, s, key, inbound, outbound, ts, isToday);
  }

  lemma {:induction false} CallsOverFrame(t: Tree, u: Tree, ks: seq<string>, s: CallStats, isToday: bool)
    requires forall k :: k in ks ==> k in t.items && k in u.items && t.items[k] == u.items[k]
    ensures CallsOver(t, ks, s, isToday) == CallsOver(u, ks, s, isToday)
  {
    if ks != [] {
      CallsOverFrame(t, u, ks[..|ks| - 1], s, isToday);
    }
  }

  /** Filtering a list with one more element at the end. */
  lemma {:induction false} WithoutAppend(ks: seq<string>, x: string, k: string)
    ensures Without(ks + [x], k) == Without(ks, k) + (if x == k then [] else [x])
  {
    if ks == [] {
      assert [x][1..] == [];
    } else {
      assert (ks + [x])[1..] == ks[1..] + [x];
      WithoutAppend(ks[1..], x, k);
    }
  }

  lemma {:induction false} CallsOverWithout(t: Tree, ks: seq<string>, k: string, s: CallStats, isToday: bool)
    requires Distinct(ks) && k in ks
    ensures CallsOver(t, Without(ks, k), s, isToday) == CallsOver(t, ks, s, isToday) - CallsOf(t, k, s, isToday)
  {
    var init := ks[..|ks| - 1];
    var last := ks[|ks| - 1];
    assert ks == init + [last];
    WithoutAppend(init, last, k);
    assert Distinct(init) by {
      forall i, j | 0 <= i < j < |init| ensures init[i] != init[j] {
        assert init[i] == ks[i] && init[j] == ks[j];
      }
    }
    if last == k {
      assert k !in init by {
        forall j | 0 <= j < |init| ensures init[j] != k {
          assert init[j] == ks[j];
        }
      }
      WithoutAbsent(init, k);
      assert Without(ks, k) == init;
    } else {
      CallsOverWithout(t, init, k, s, isToday);
      var w := Without(init, k);
      assert Without(ks, k) == w + [last];
      assert (w + [last])[..|w + [last]| - 1] == w;
    }
  }

  /** Deleting a main category takes exactly its calls off the reported total and its
      entry out of the per-main-category calls. */
  lemma DeleteMainCategoryReport(t: Tree, k: string, s: CallStats, isToday: bool)
    requires k in t.items
    ensures ReportOf(Remove(t, k), s, isToday).totalCalls == ReportOf(t, s, isToday).totalCalls - MainTotals(t, k, s, isToday).calls
    ensures k !in ReportOf(Remove(t, k), s, isToday).mainCategoryCalls
  {
    var u := Remove(t, k);
    CallsOverWithout(t, t.keys, k, s, isToday);
    CallsOverFrame(t, u, u.keys, s, isToday);
    MainCallsOverSpec(u, |u.keys|, s, isToday);
    assert u.keys[..|u.keys|] == u.keys;
  }
}

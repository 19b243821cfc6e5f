/** The category tree held in `categories` (app.js:145): main categories by key, each with
    a display name and its subcategories by key, each subcategory with a display name and
    a text template. This module holds the values and the pure parts: the baseline
    categories (app.js:283-298), the checks and merge `initCategories` applies to saved
    data (app.js:300-337), the two-phase lookup `getSubcategoryKeyFromName`
    (app.js:580-599), and the nested updates the add/delete operations perform. */
module Categories {
  import opened Wrappers
  import opened Text
  import opened Dict

  datatype Subcategory = Subcategory(name: string, template: string)

  datatype Category = Category(name: string, subcategories: Dict<Subcategory>)

  type Tree = Dict<Category>

  /** The keys of the three baseline main categories, in the order
      `getDefaultCategories` lists them. */
  const Baseline: seq<string> := ["helppi", "kayttotuki", "aspa"]

  /** The baseline entry for a baseline key: its display name and no subcategories. */
  function DefaultCategory(key: string): (c: Category)
    requires key in Baseline
    ensures c.subcategories == Empty()
  {
    var name := if key == "helppi" then "Helppi" else if key == "kayttotuki" then "Käyttötuki" else "Aspa";
    Category(name, Empty())
  }

  /** `getDefaultCategories()`: exactly the three baseline categories, in order, each
      with no subcategories. */
  function DefaultCategories(): (t: Tree)
    ensures t.keys == Baseline
    ensures forall k :: k in t.items ==> k in Baseline && t.items[k] == DefaultCategory(k)
  {
    var items := map k | k in Baseline :: DefaultCategory(k);
    assert forall i :: 0 <= i < |Baseline| ==> Baseline[i] in items;
    RawDict(Baseline, items)
  }

  // ----- Reading saved data (initCategories) -----

  /** What `localStorage.getItem('callCategories')` followed by `JSON.parse` gives:
      nothing (a missing or empty string), text that does not parse, a parsed value that
      is not a plain object (null, a number, a string, a boolean or an array), or a plain
      object of category entries. */
  datatype SavedCategories = Absent | Unparsable | NotAnObject | Parsed(tree: Tree)

  /** The notification `initCategories` raises. */
  datatype LoadNotice = NoNotice | RestoredInvalid | RestoredCorrupted

  /** Some entry has a display name that is not blank after trimming. */
  predicate HasReadableName(t: Tree)
  {
    exists k :: k in t.items && Trim(t.items[k].name) != ""
  }

  /** One step of the merge: a baseline key that is missing gets its default entry,
      appended at the end. */
  function AddIfMissing(t: Tree, key: string): (r: Tree)
    requires key in Baseline
  {
    if key in t.items then t else Put(t, key, DefaultCategory(key))
  }

  /** The merge loop of `initCategories` over the baseline keys `ks`. */
  function AddMissing(t: Tree, ks: seq<string>): (r: Tree)
    requires forall k :: k in ks ==> k in Baseline
    decreases |ks|
  {
    if ks == [] then t else AddMissing(AddIfMissing(t, ks[0]), ks[1..])
  }

  /** One merge step keeps every entry and its place and adds at most `key`. */
  lemma AddIfMissingSpec(t: Tree, key: string)
    requires key in Baseline
    ensures key in AddIfMissing(t, key).items
    ensures forall k :: k in t.items ==> k in AddIfMissing(t, key).items && AddIfMissing(t, key).items[k] == t.items[k]
    ensures forall k :: k in AddIfMissing(t, key).items && k !in t.items ==> k == key && AddIfMissing(t, key).items[k] == DefaultCategory(k)
    ensures |t.keys| <= |AddIfMissing(t, key).keys| && AddIfMissing(t, key).keys[..|t.keys|] == t.keys
  {
    if key !in t.items {
      assert (t.keys + [key])[..|t.keys|] == t.keys;
    }
  }

  /** After the merge every key of `ks` is present. */
  lemma {:induction false} AddMissingCovers(t: Tree, ks: seq<string>)
    requires forall k :: k in ks ==> k in Baseline
    ensures forall k :: k in t.items ==> k in AddMissing(t, ks).items
    ensures forall k :: k in ks ==> k in AddMissing(t, ks).items
    decreases |ks|
  {
    if ks != [] {
      AddIfMissingSpec(t, ks[0]);
      AddMissingCovers(AddIfMissing(t, ks[0]), ks[1..]);
      forall k | k in ks ensures k in AddMissing(t, ks).items {
        if k != ks[0] { assert k in ks[1..]; }
      }
    }
  }

  /** The merge keeps every saved entry as it was, and what it adds are baseline keys of
      `ks` with their default entries. */
  lemma {:induction false} AddMissingEntries(t: Tree, ks: seq<string>)
    requires forall k :: k in ks ==> k in Baseline
    ensures forall k :: k in t.items ==> k in AddMissing(t, ks).items && AddMissing(t, ks).items[k] == t.items[k]
    ensures forall k :: k in AddMissing(t, ks).items && k !in t.items ==> k in ks && AddMissing(t, ks).items[k] == DefaultCategory(k)
    decreases |ks|
  {
    if ks != [] {
      var t' := AddIfMissing(t, ks[0]);
      AddIfMissingSpec(t, ks[0]);
      AddMissingEntries(t', ks[1..]);
      var r := AddMissing(t', ks[1..]);
      assert r == AddMissing(t, ks);
      forall k | k in r.items && k !in t.items ensures k in ks && r.items[k] == DefaultCategory(k) {
        if k in t'.items {
          assert k == ks[0];
        } else {
          assert k in ks[1..];
        }
      }
    }
  }

  /** The merge only appends keys: the saved keys keep their order at the front. */
  lemma {:induction false} AddMissingOrder(t: Tree, ks: seq<string>)
    requires forall k :: k in ks ==> k in Baseline
    ensures |t.keys| <= |AddMissing(t, ks).keys| && AddMissing(t, ks).keys[..|t.keys|] == t.keys
    decreases |ks|
  {
    if ks != [] {
      var t' := AddIfMissing(t, ks[0]);
      AddIfMissingSpec(t, ks[0]);
      AddMissingOrder(t', ks[1..]);
      PrefixOfPrefix(t.keys, t'.keys, AddMissing(t', ks[1..]).keys);
    }
  }

  /** A prefix of a prefix is a prefix. */
  lemma PrefixOfPrefix(a: seq<string>, b: seq<string>, c: seq<string>)
    requires |a| <= |b| && b[..|a|] == a
    requires |b| <= |c| && c[..|b|] == b
    ensures c[..|a|] == a
  {
    assert c[..|a|] == c[..|b|][..|a|];
  }

  /** `initCategories` (app.js:300-337) as a value: the tree it installs and the notice it
      shows. Absent data gives the defaults silently; text that does not parse or is not a
      plain object gives the defaults with the "corrupted" notice; an object with no
      readable name (including the empty object) gives the defaults with the "invalid"
      notice; otherwise the saved tree with the missing baseline categories merged in. */
  function LoadCategories(saved: SavedCategories): (r: (Tree, LoadNotice))
  {
    match saved
    case Absent => (DefaultCategories(), NoNotice)
    case Unparsable => (DefaultCategories(), RestoredCorrupted)
    case NotAnObject => (DefaultCategories(), RestoredCorrupted)
    case Parsed(t) =>
      if !HasReadableName(t) then (DefaultCategories(), RestoredInvalid)
      else (AddMissing(t, Baseline), NoNotice)
  }

  /** Whatever was saved, the three baseline keys are present after loading. */
  lemma LoadedHasBaseline(saved: SavedCategories)
    ensures forall k :: k in Baseline ==> k in LoadCategories(saved).0.items
  {
    if saved.Parsed? && HasReadableName(saved.tree) {
      AddMissingCovers(saved.tree, Baseline);
    }
  }

  /** Saved data that is absent, unparsable, not a plain object, empty or nameless is
      replaced by exactly the three baseline categories, each with no subcategories, and
      only the silent case raises no notice. */
  lemma LoadFallsBackToDefaults(saved: SavedCategories)
    requires !(saved.Parsed? && HasReadableName(saved.tree))
    ensures LoadCategories(saved).0 == DefaultCategories()
    ensures LoadCategories(saved).0.keys == Baseline
    ensures forall k :: k in LoadCategories(saved).0.items ==>
      LoadCategories(saved).0.items[k].subcategories == Empty()
    ensures (LoadCategories(saved).1 == NoNotice) == saved.Absent?
  {
  }

  /** A readable saved tree keeps every entry unchanged and in its order; the only entries
      added are missing baseline categories, with their default contents. */
  lemma LoadKeepsSavedEntries(t: Tree)
    requires HasReadableName(t)
    ensures var r := LoadCategories(Parsed(t)).0;
      && LoadCategories(Parsed(t)).1 == NoNotice
      && (forall k :: k in t.items ==> k in r.items && r.items[k] == t.items[k])
      && (forall k :: k in r.items && k !in t.items ==> k in Baseline && r.items[k] == DefaultCategory(k))
      && r.keys[..|t.keys|] == t.keys
  {
    AddMissingEntries(t, Baseline);
    AddMissingOrder(t, Baseline);
  }

  // ----- getSubcategoryKeyFromName -----

  /** The display name of `k` matches `name` ignoring case. */
  predicate NameMatches(subs: Dict<Subcategory>, k: string, name: string)
    requires k in subs.items
  {
    Lower(subs.items[k].name) == Lower(name)
  }

  /** The `for (const key in subcategories)` loop: the position of the first key, in
      enumeration order, whose name matches. */
  function FirstNameMatch(subs: Dict<Subcategory>, from: nat, name: string): (r: Option<nat>)
    requires from <= |subs.keys|
    ensures r.Some? ==> from <= r.value < |subs.keys| && NameMatches(subs, subs.keys[r.value], name)
    ensures r.Some? ==> forall j :: from <= j < r.value ==> !NameMatches(subs, subs.keys[j], name)
    ensures r.None? ==> forall j :: from <= j < |subs.keys| ==> !NameMatches(subs, subs.keys[j], name)
    decreases |subs.keys| - from
  {
    if from == |subs.keys| then None
    else if NameMatches(subs, subs.keys[from], name) then Some(from)
    else FirstNameMatch(subs, from + 1, name)
  }

  /** `getSubcategoryKeyFromName(mainKey, name)`. */
  function SubcategoryKeyFromName(t: Tree, mainKey: string, name: string): (r: Option<string>)
  {
    if mainKey == "" || mainKey !in t.items then None
    else
      var subs := t.items[mainKey].subcategories;
      match FirstNameMatch(subs, 0, name)
      case Some(i) => Some(subs.keys[i])
      case None => if name in subs.items then Some(name) else None
  }

  /** The lookup gives nothing without a known main category; otherwise the first key
      (in enumeration order) whose name matches case-insensitively, else the input itself
      when it is a subcategory key, else nothing. Whatever it gives is an existing
      subcategory key. */
  lemma SubcategoryKeyFromNameSpec(t: Tree, mainKey: string, name: string)
    ensures var r := SubcategoryKeyFromName(t, mainKey, name);
      && (mainKey == "" || mainKey !in t.items ==> r == None)
      && (r.Some? ==> mainKey in t.items && r.value in t.items[mainKey].subcategories.items)
    ensures mainKey != "" && mainKey in t.items ==>
      var subs := t.items[mainKey].subcategories;
      var r := SubcategoryKeyFromName(t, mainKey, name);
      && ((exists i :: 0 <= i < |subs.keys| && NameMatches(subs, subs.keys[i], name)) ==>
            exists i :: 0 <= i < |subs.keys| && r == Some(subs.keys[i]) && NameMatches(subs, subs.keys[i], name)
              && forall j :: 0 <= j < i ==> !NameMatches(subs, subs.keys[j], name))
      && ((forall i :: 0 <= i < |subs.keys| ==> !NameMatches(subs, subs.keys[i], name)) ==>
            r == if name in subs.items then Some(name) else None)
  {
    if mainKey != "" && mainKey in t.items {
      var subs := t.items[mainKey].subcategories;
      match FirstNameMatch(subs, 0, name)
      case Some(i) =>
        assert SubcategoryKeyFromName(t, mainKey, name) == Some(subs.keys[i]);
      case None =>
    }
  }

  // ----- Nested updates -----

  /** `categories[mainKey].subcategories[subKey] = sub`: the main category keeps its name
      and its place; only its subcategory dictionary changes. */
  function WithSubcategory(t: Tree, mainKey: string, subKey: string, sub: Subcategory): (r: Tree)
    requires mainKey in t.items
    ensures r.keys == t.keys
  {
    var c := t.items[mainKey];
    Put(t, mainKey, Category(c.name, Put(c.subcategories, subKey, sub)))
  }

  /** `delete categories[mainKey].subcategories[subKey]`. */
  function WithoutSubcategory(t: Tree, mainKey: string, subKey: string): (r: Tree)
    requires mainKey in t.items
    ensures r.keys == t.keys
  {
    var c := t.items[mainKey];
    Put(t, mainKey, Category(c.name, Remove(c.subcategories, subKey)))
  }

  /** Adding a new subcategory touches nothing but that one entry: every other main
      category and every other subcategory is as it was. */
  lemma WithSubcategoryFrame(t: Tree, mainKey: string, subKey: string, sub: Subcategory)
    requires mainKey in t.items
    ensures var r := WithSubcategory(t, mainKey, subKey, sub);
      && r.items.Keys == t.items.Keys
      && (forall m :: m in t.items && m != mainKey ==> r.items[m] == t.items[m])
      && r.items[mainKey].name == t.items[mainKey].name
      && r.items[mainKey].subcategories.items == t.items[mainKey].subcategories.items[subKey := sub]
  {
  }

  /** Deleting a subcategory that was just added gives the tree back, enumeration order
      included. */
  lemma AddThenDeleteSubcategory(t: Tree, mainKey: string, subKey: string, sub: Subcategory)
    requires mainKey in t.items && subKey !in t.items[mainKey].subcategories.items
    ensures WithoutSubcategory(WithSubcategory(t, mainKey, subKey, sub), mainKey, subKey) == t
  {
    var c := t.items[mainKey];
    PutRemoveRoundTrip(c.subcategories, subKey, sub);
    var r := WithoutSubcategory(WithSubcategory(t, mainKey, subKey, sub), mainKey, subKey);
    assert r.items == t.items;
  }

  /** Deleting a main category that was just added gives the tree back. */
  lemma AddThenDeleteMainCategory(t: Tree, key: string, name: string)
    requires key !in t.items
    ensures Remove(Put(t, key, Category(name, Empty())), key) == t
  {
    PutRemoveRoundTrip(t, key, Category(name, Empty()));
  }
}

/** The grouping behind both generateCuratedJson functions (scripts/app.js
    and script.js): curated items are collected under their `category`
    property key, in the order the keys are first seen, and each group
    becomes a category record of the new document. */
module Curation {
  import opened Wrappers
  import opened Json

  /** The property key `itemsByCategory[item.category]` uses: a string as it
      is, a missing category as "undefined", any other value through String()
      (a parameter). */
  function CategoryKey(item: Json, str: Json -> string): string {
    match Prop(item, "category")
    case None => "undefined"
    case Some(JStr(s)) => s
    case Some(v) => str(v)
  }

  /** The keys of a sequence, each once, in the order of first appearance. */
  function FirstSeen(ks: seq<string>): (r: seq<string>)
    ensures forall k :: k in r <==> k in ks
    ensures forall a, b :: 0 <= a < b < |r| ==> r[a] != r[b]
  {
    if |ks| == 0 then []
    else
      var prefix := FirstSeen(ks[..|ks| - 1]);
      assert forall k :: k in ks <==> k in ks[..|ks| - 1] || k == ks[|ks| - 1];
      if ks[|ks| - 1] in prefix then prefix else prefix + [ks[|ks| - 1]]
  }

  /** Where k first occurs. */
  function FirstIndex(ks: seq<string>, k: string): (r: nat)
    requires k in ks
    ensures r < |ks| && ks[r] == k && forall m :: 0 <= m < r ==> ks[m] != k
  {
    if ks[0] == k then 0 else 1 + FirstIndex(ks[1..], k)
  }

  /** The groups come in the order their keys first occur. */
  lemma {:induction false} FirstSeenOrder(ks: seq<string>, a: int, b: int)
    requires 0 <= a < b < |FirstSeen(ks)|
    ensures FirstIndex(ks, FirstSeen(ks)[a]) < FirstIndex(ks, FirstSeen(ks)[b])
  {
    var n := |ks| - 1;
    var prefix := FirstSeen(ks[..n]);
    var r := FirstSeen(ks);
    assert r[a] in ks && r[b] in ks;
    FirstIndexOfPrefix(ks, n, r[a]);
    if b < |prefix| {
      FirstSeenOrder(ks[..n], a, b);
      FirstIndexOfPrefix(ks, n, r[b]);
    } else {
      assert r[b] == ks[n] && r[b] !in ks[..n];
    }
  }

  lemma FirstIndexOfPrefix(ks: seq<string>, n: int, k: string)
    requires 0 <= n <= |ks| && k in ks[..n]
    ensures k in ks && FirstIndex(ks, k) == FirstIndex(ks[..n], k)
  {
    var i := FirstIndex(ks[..n], k);
    var j := FirstIndex(ks, k);
    assert ks[i] == k;
  }

  /** The items whose key is k, in their original order. */
  function ItemsWithKey(ks: seq<string>, items: seq<Json>, k: string): (r: seq<Json>)
    requires |ks| == |items|
    ensures |r| <= |items|
    ensures (|r| == 0) <==> k !in ks
  {
    if |ks| == 0 then []
    else
      var n := |ks| - 1;
      assert forall j :: j in ks <==> j in ks[..n] || j == ks[n];
      ItemsWithKey(ks[..n], items[..n], k) + (if ks[n] == k then [items[n]] else [])
  }

  /** The total size of the groups named by `groupKeys`. */
  function TotalSize(groupKeys: seq<string>, ks: seq<string>, items: seq<Json>): nat
    requires |ks| == |items|
  {
    if |groupKeys| == 0 then 0
    else TotalSize(groupKeys[..|groupKeys| - 1], ks, items) + |ItemsWithKey(ks, items, groupKeys[|groupKeys| - 1])|
  }

  /** Appending one item grows exactly the group of its key, by one. */
  lemma {:induction false} TotalSizeGrows(groupKeys: seq<string>, ks: seq<string>, items: seq<Json>, k: string, item: Json)
    requires |ks| == |items|
    requires forall a, b :: 0 <= a < b < |groupKeys| ==> groupKeys[a] != groupKeys[b]
    ensures TotalSize(groupKeys, ks + [k], items + [item])
            == TotalSize(groupKeys, ks, items) + (if k in groupKeys then 1 else 0)
  {
    if |groupKeys| > 0 {
      var n := |groupKeys| - 1;
      TotalSizeGrows(groupKeys[..n], ks, items, k, item);
      assert (ks + [k])[..|ks|] == ks && (items + [item])[..|items|] == items;
      assert k in groupKeys <==> k in groupKeys[..n] || k == groupKeys[n];
      if k == groupKeys[n] {
        assert k !in groupKeys[..n];
      }
    }
  }

  /** A group list that does not name k: appending its group adds its size. */
  lemma TotalSizeAppend(groupKeys: seq<string>, ks: seq<string>, items: seq<Json>, k: string)
    requires |ks| == |items|
    ensures TotalSize(groupKeys + [k], ks, items) == TotalSize(groupKeys, ks, items) + |ItemsWithKey(ks, items, k)|
  {
    assert (groupKeys + [k])[..|groupKeys|] == groupKeys;
  }

  lemma LastSplit<T>(s: seq<T>)
    requires |s| > 0
    ensures s[..|s| - 1] + [s[|s| - 1]] == s
  {
  }

  /** The groups partition the items: their sizes add up to the item count. */
  lemma {:induction false} GroupSizesSumToCount(ks: seq<string>, items: seq<Json>)
    requires |ks| == |items|
    ensures TotalSize(FirstSeen(ks), ks, items) == |items|
  {
    if |ks| > 0 {
      var n := |ks| - 1;
      var k := ks[n];
      GroupSizesSumToCount(ks[..n], items[..n]);
      var prefix := FirstSeen(ks[..n]);
      TotalSizeGrows(prefix, ks[..n], items[..n], k, items[n]);
      LastSplit(ks);
      LastSplit(items);
      if k !in prefix {
        TotalSizeAppend(prefix, ks, items, k);
        assert ItemsWithKey(ks, items, k) == ItemsWithKey(ks[..n], items[..n], k) + [items[n]];
        assert k !in ks[..n];
      }
    }
  }

  /** The grouping loop of generateCuratedJson (scripts/app.js:306-313,
      script.js:310-317): item i goes under key ks[i]. The result lists each
      key once, in first-seen order, with the items of that key in their
      original order. */
  method GroupByCategory(ks: seq<string>, items: seq<Json>) returns (groupKeys: seq<string>, groups: seq<seq<Json>>)
    requires |ks| == |items|
    ensures groupKeys == FirstSeen(ks)
    ensures |groups| == |groupKeys|
    ensures forall j :: 0 <= j < |groups| ==> groups[j] == ItemsWithKey(ks, items, groupKeys[j])
  {
    groupKeys, groups := [], [];
    var i := 0;
    while i < |items|
      invariant 0 <= i <= |items|
      invariant Grouped(ks[..i], items[..i], groupKeys, groups)
    {
      var k := ks[i];
      var j := 0;
      while j < |groupKeys| && groupKeys[j] != k
        invariant 0 <= j <= |groupKeys|
        invariant forall m :: 0 <= m < j ==> groupKeys[m] != k
      {
        j := j + 1;
      }
      assert ks[..i + 1] == ks[..i] + [k] && items[..i + 1] == items[..i] + [items[i]];
      if j == |groupKeys| {
        GroupedNewKey(ks[..i], items[..i], groupKeys, groups, k, items[i]);
        groupKeys := groupKeys + [k];
        groups := groups + [[items[i]]];
      } else {
        GroupedOldKey(ks[..i], items[..i], groupKeys, groups, k, items[i], j);
        groups := groups[j := groups[j] + [items[i]]];
      }
      i := i + 1;
    }
    assert ks[..i] == ks && items[..i] == items;
  }

  /** The loop's state after the items `items`: the first-seen keys and, for
      each, the items of that key. */
  predicate Grouped(ks: seq<string>, items: seq<Json>, groupKeys: seq<string>, groups: seq<seq<Json>>)
    requires |ks| == |items|
  {
    && groupKeys == FirstSeen(ks)
    && |groups| == |groupKeys|
    && forall j :: 0 <= j < |groups| ==> groups[j] == ItemsWithKey(ks, items, groupKeys[j])
  }

  /** An item with a key not seen yet opens a new group. */
  lemma GroupedNewKey(ks: seq<string>, items: seq<Json>, groupKeys: seq<string>, groups: seq<seq<Json>>, k: string, item: Json)
    requires |ks| == |items| && Grouped(ks, items, groupKeys, groups)
    requires k !in groupKeys
    ensures Grouped(ks + [k], items + [item], groupKeys + [k], groups + [[item]])
  {
    var ks', items' := ks + [k], items + [item];
    assert ks'[..|ks|] == ks && items'[..|ks|] == items;
    forall j | 0 <= j < |groups| + 1
      ensures (groups + [[item]])[j] == ItemsWithKey(ks', items', (groupKeys + [k])[j])
    {
      if j == |groups| {
        assert ItemsWithKey(ks, items, k) == [];
      }
    }
  }

  /** An item with a key seen before joins that key's group. */
  lemma GroupedOldKey(ks: seq<string>, items: seq<Json>, groupKeys: seq<string>, groups: seq<seq<Json>>, k: string, item: Json, j: int)
    requires |ks| == |items| && Grouped(ks, items, groupKeys, groups)
    requires 0 <= j < |groupKeys| && groupKeys[j] == k
    ensures Grouped(ks + [k], items + [item], groupKeys, groups[j := groups[j] + [item]])
  {
    var ks', items' := ks + [k], items + [item];
    assert ks'[..|ks|] == ks && items'[..|ks|] == items;
    assert k in FirstSeen(ks);
  }

  // ---------------------------------------------------------------------------
  // The curated document

  /** `cat.title === title` for an element of the categories array; reading
      `.title` of null throws, which FindByTitle reports. */
  predicate TitleIs(cat: Json, title: string) {
    StrictEq(Prop(cat, "title"), Some(JStr(title)))
  }

  /** What `categories.find(cat => cat.title === title)` does. */
  datatype Found = NotFound | FoundCategory(cat: Json) | FindThrows

  /** Array.prototype.find over the categories: the first element whose title
      matches, unless a null element comes first. */
  function FindByTitle(cats: seq<Json>, title: string): Found {
    if |cats| == 0 then NotFound
    else if cats[0] == JNull then FindThrows
    else if TitleIs(cats[0], title) then FoundCategory(cats[0])
    else FindByTitle(cats[1..], title)
  }

  /** The search finds nothing exactly when no element is null or matches. */
  lemma {:induction false} FindNothingIff(cats: seq<Json>, title: string)
    ensures FindByTitle(cats, title) == NotFound <==> forall i :: 0 <= i < |cats| ==> cats[i] != JNull && !TitleIs(cats[i], title)
  {
    if |cats| > 0 && cats[0] != JNull && !TitleIs(cats[0], title) {
      FindNothingIff(cats[1..], title);
      assert forall i :: 1 <= i < |cats| ==> cats[i] == cats[1..][i - 1];
    }
  }

  /** A found category is the first element that matches, with no null
      before it. */
  lemma {:induction false} FindFirstMatch(cats: seq<Json>, title: string)
    requires FindByTitle(cats, title).FoundCategory?
    ensures exists i :: 0 <= i < |cats| && cats[i] == FindByTitle(cats, title).cat && TitleIs(cats[i], title)
                        && forall m :: 0 <= m < i ==> cats[m] != JNull && !TitleIs(cats[m], title)
  {
    if cats[0] != JNull && !TitleIs(cats[0], title) {
      var tail := cats[1..];
      FindFirstMatch(tail, title);
      var i :| 0 <= i < |tail| && tail[i] == FindByTitle(tail, title).cat && TitleIs(tail[i], title)
               && forall m :: 0 <= m < i ==> tail[m] != JNull && !TitleIs(tail[m], title);
      assert FindByTitle(cats, title) == FindByTitle(tail, title);
      assert forall m :: 1 <= m <= i + 1 ==> cats[m] == tail[m - 1];
      assert cats[i + 1] == FindByTitle(cats, title).cat && TitleIs(cats[i + 1], title);
      assert forall m :: 0 <= m < i + 1 ==> cats[m] != JNull && !TitleIs(cats[m], title);
    }
  }

  /** The search throws at the first null element, no match coming before it. */
  lemma {:induction false} FindThrowsAtNull(cats: seq<Json>, title: string)
    requires FindByTitle(cats, title).FindThrows?
    ensures exists i :: 0 <= i < |cats| && cats[i] == JNull && forall m :: 0 <= m < i ==> !TitleIs(cats[m], title)
  {
    if cats[0] != JNull {
      var tail := cats[1..];
      FindThrowsAtNull(tail, title);
      var i :| 0 <= i < |tail| && tail[i] == JNull && forall m :: 0 <= m < i ==> !TitleIs(tail[m], title);
      assert forall m :: 1 <= m <= i ==> cats[m] == tail[m - 1];
    }
  }

  /** `originalCategory?.topic || ""`. */
  function TopicOf(found: Found): (topic: Json)
    requires !found.FindThrows?
    ensures found.FoundCategory? && Truthy(Prop(found.cat, "topic")) ==> Some(topic) == Prop(found.cat, "topic")
    ensures !(found.FoundCategory? && Truthy(Prop(found.cat, "topic"))) ==> topic == JStr("")
  {
    if found.FoundCategory? && Truthy(Prop(found.cat, "topic")) then Prop(found.cat, "topic").value else JStr("")
  }

  /** One category record of the curated document. */
  function Record(key: string, group: seq<Json>, topic: Json): Json {
    JObj([("title", JStr(key)), ("content", JArr(group)), ("topic", topic)])
  }

  /** The records for the keys `gk`, or None when a lookup throws. */
  function Records(gk: seq<string>, ks: seq<string>, items: seq<Json>, cats: seq<Json>): (r: Option<seq<Json>>)
    requires |ks| == |items|
    ensures r.Some? ==> |r.value| == |gk|
  {
    if |gk| == 0 then Some([])
    else
      var n := |gk| - 1;
      var p := Records(gk[..n], ks, items, cats);
      var f := FindByTitle(cats, gk[n]);
      if p.None? || f.FindThrows? then None
      else Some(p.value + [Record(gk[n], ItemsWithKey(ks, items, gk[n]), TopicOf(f))])
  }

  /** The records fail exactly when one of the look-ups throws. */
  lemma {:induction false} RecordsThrowIff(gk: seq<string>, ks: seq<string>, items: seq<Json>, cats: seq<Json>)
    requires |ks| == |items|
    ensures Records(gk, ks, items, cats).None? <==> exists j :: 0 <= j < |gk| && FindByTitle(cats, gk[j]).FindThrows?
  {
    if |gk| > 0 {
      var n := |gk| - 1;
      var prefix := gk[..n];
      RecordsThrowIff(prefix, ks, items, cats);
      if Records(prefix, ks, items, cats).None? {
        var j :| 0 <= j < n && FindByTitle(cats, prefix[j]).FindThrows?;
        assert prefix[j] == gk[j];
      } else if !FindByTitle(cats, gk[n]).FindThrows? {
        forall j | 0 <= j < |gk| ensures !FindByTitle(cats, gk[j]).FindThrows? {
          if j < n {
            assert prefix[j] == gk[j];
          }
        }
      }
    }
  }

  /** Record j is built from key j, its group and its topic. */
  lemma {:induction false} RecordsContents(gk: seq<string>, ks: seq<string>, items: seq<Json>, cats: seq<Json>, j: int)
    requires |ks| == |items| && Records(gk, ks, items, cats).Some? && 0 <= j < |gk|
    ensures !FindByTitle(cats, gk[j]).FindThrows?
    ensures Records(gk, ks, items, cats).value[j] == Record(gk[j], ItemsWithKey(ks, items, gk[j]), TopicOf(FindByTitle(cats, gk[j])))
  {
    var n := |gk| - 1;
    if j < n {
      RecordsContents(gk[..n], ks, items, cats, j);
      assert gk[..n][j] == gk[j];
    }
  }

  /** What generateCuratedJson ends with: nothing to curate (a toast), a
      TypeError from the category lookup, or the document it shows. */
  datatype CuratedOutcome = NothingCurated | CuratedThrows | CuratedDocument(doc: Json)

  /** `value || fallback` for an optional property. */
  function OrElse(v: Option<Json>, fallback: Json): Json {
    if Truthy(v) then v.value else fallback
  }

  /** The document's own fields: `type` and `title` from the original or their
      defaults, the records, and the original `date` (left out of the object
      when undefined, as JSON.stringify does). */
  function Document(original: Json, records: seq<Json>, isoDate: string): Json {
    JObj([("type", OrElse(Prop(original, "type"), JStr("dailySummary"))),
          ("title", OrElse(Prop(original, "title"), JStr("Daily Summary for " + isoDate))),
          ("categories", JArr(records))]
         + (if Prop(original, "date").Some? then [("date", Prop(original, "date").value)] else []))
  }

  /** The category keys of the curated items. */
  function Keys(items: seq<Json>, str: Json -> string): (ks: seq<string>)
    ensures |ks| == |items|
  {
    seq(|items|, i requires 0 <= i < |items| => CategoryKey(items[i], str))
  }

  /** generateCuratedJson as a function of the original document, the value
      whose `.find` looks up categories, and the curated items. A null
      curated item makes `item.category` throw. */
  function CuratedSpec(original: Json, categories: Option<Json>, items: seq<Json>, isoDate: string, str: Json -> string): (r: CuratedOutcome)
    ensures r.NothingCurated? <==> !Truthy(Some(original)) || |items| == 0
    ensures Truthy(Some(original)) && |items| > 0 && (JNull in items || !IsArray(categories)) ==> r.CuratedThrows?
  {
    if !Truthy(Some(original)) || |items| == 0 then NothingCurated
    else if JNull in items || !IsArray(categories) then CuratedThrows
    else
      var ks := Keys(items, str);
      var recs := Records(FirstSeen(ks), ks, items, categories.value.items);
      if recs.None? then CuratedThrows else CuratedDocument(Document(original, recs.value, isoDate))
  }

  /** The shape of a produced document: one record per category key in
      first-seen order, each holding exactly the items of that key in their
      original order, with the topic of the first category of the same title
      (or ""); the record sizes add up to the number of curated items. */
  lemma CuratedDocumentShape(original: Json, categories: Option<Json>, items: seq<Json>, isoDate: string, str: Json -> string)
    requires CuratedSpec(original, categories, items, isoDate, str).CuratedDocument?
    ensures IsArray(categories)
    ensures var ks := Keys(items, str);
      var recs := Records(FirstSeen(ks), ks, items, categories.value.items);
      && recs.Some?
      && Prop(CuratedSpec(original, categories, items, isoDate, str).doc, "categories") == Some(JArr(recs.value))
      && |recs.value| == |FirstSeen(ks)|
      && TotalSize(FirstSeen(ks), ks, items) == |items|
  {
    var ks := Keys(items, str);
    GroupSizesSumToCount(ks, items);
    var recs := Records(FirstSeen(ks), ks, items, categories.value.items);
    CategoriesOfDocument(original, recs.value, isoDate);
  }

  lemma CategoriesOfDocument(original: Json, records: seq<Json>, isoDate: string)
    ensures Prop(Document(original, records, isoDate), "categories") == Some(JArr(records))
  {
    var d := Document(original, records, isoDate);
    assert d.fields[0].0 == "type" && d.fields[1].0 == "title" && d.fields[2] == ("categories", JArr(records));
    assert d.fields[1..][1..][0] == d.fields[2];
  }

  /** The loop of generateCuratedJson (scripts/app.js:291-329,
      script.js:298-333): group, then look each key's category up and push
      its record. */
  method BuildCuratedJson(original: Json, categories: Option<Json>, curatedItems: seq<Json>, isoDate: string, str: Json -> string)
    returns (r: CuratedOutcome)
    ensures r == CuratedSpec(original, categories, curatedItems, isoDate, str)
  {
    if !Truthy(Some(original)) || |curatedItems| == 0 {
      return NothingCurated;
    }
    if JNull in curatedItems {
      return CuratedThrows;
    }
    var ks := Keys(curatedItems, str);
    var groupKeys, groups := GroupByCategory(ks, curatedItems);
    if !IsArray(categories) {
      return CuratedThrows;
    }
    var records := BuildRecords(groupKeys, groups, ks, curatedItems, categories.value.items);
    if records.None? {
      return CuratedThrows;
    }
    r := CuratedDocument(Document(original, records.value, isoDate));
  }

  /** The second loop: one record per group, stopping at the first lookup
      that throws. */
  method BuildRecords(groupKeys: seq<string>, groups: seq<seq<Json>>, ks: seq<string>, items: seq<Json>, cats: seq<Json>)
    returns (r: Option<seq<Json>>)
    requires |ks| == |items| && |groups| == |groupKeys|
    requires forall j :: 0 <= j < |groups| ==> groups[j] == ItemsWithKey(ks, items, groupKeys[j])
    ensures r == Records(groupKeys, ks, items, cats)
  {
    var records: seq<Json> := [];
    var j := 0;
    while j < |groupKeys|
      invariant 0 <= j <= |groupKeys|
      invariant Records(groupKeys[..j], ks, items, cats) == Some(records)
    {
      var found := FindByTitle(cats, groupKeys[j]);
      assert groupKeys[..j + 1][..j] == groupKeys[..j];
      if found.FindThrows? {
        RecordsThrowIff(groupKeys, ks, items, cats);
        return None;
      }
      records := records + [Record(groupKeys[j], groups[j], TopicOf(found))];
      j := j + 1;
    }
    assert groupKeys[..j] == groupKeys;
    r := Some(records);
  }
}

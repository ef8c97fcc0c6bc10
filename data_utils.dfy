/** utils/dataUtils.js: the feed normaliser (convertJsonFormat) and the field
    probing that turns a loosely typed news item into display text, an image
    URL and source links. */
module DataUtils {
  import opened Wrappers
  import opened Json
  import opened JsText

  // ---------------------------------------------------------------------------
  // Category titles

  /** `s.replace(/\b\w/g, l => l.toUpperCase())`: a word character with no word
      character before it is upper-cased (only a to z change). */
  function UpperWordStarts(s: string): (r: string)
    ensures |r| == |s|
  {
    seq(|s|, i requires 0 <= i < |s| =>
      if IsWordChar(s[i]) && (i == 0 || !IsWordChar(s[i - 1])) then ToAsciiUpper(s[i]) else s[i])
  }

  /** The title convertJsonFormat derives from a category key:
      `key.replace(/_/g, ' ').replace(/\b\w/g, l => l.toUpperCase())`.
      Its contract, stated on the key itself: the length is kept, every `_`
      becomes a space, a lower-case ASCII letter that begins a word (first
      character, or after `_` or any character outside `[A-Za-z0-9_]`) becomes
      upper case, and every other character is left as it is. */
  function Humanize(key: string): (r: string)
    ensures |r| == |key|
    ensures forall i :: 0 <= i < |key| ==>
      r[i] == if key[i] == '_' then ' '
              else if i == 0 || key[i - 1] == '_' || !IsWordChar(key[i - 1]) then ToAsciiUpper(key[i])
              else key[i]
  {
    ReplaceAllOneChar(key, '_', ' ');
    UpperWordStarts(ReplaceAll(key, "_", " "))
  }

  // ---------------------------------------------------------------------------
  // convertJsonFormat

  /** The record `{title, content, topic}` that convertJsonFormat pushes. */
  function CategoryRecord(title: string, content: Json, topic: string): Json {
    JObj([("title", JStr(title)), ("content", content), ("topic", JStr(topic))])
  }

  /** What one member `key: value` of an object-valued `categories` contributes
      (utils/dataUtils.js:23-56). The branches are tried in a fixed order: an
      array is the content itself; then an array `new_issues_prs`; then an
      array `overall_focus`, whose title gets " - Focus"; then any other object
      becomes a one-item category. A primitive or null contributes nothing. */
  function CategoryFor(key: string, value: Json): (r: Option<Json>)
    ensures r.None? <==> !value.JArr? && !value.JObj?
    ensures value.JArr? ==> r == Some(CategoryRecord(Humanize(key), value, key))
    ensures value.JObj? && IsArray(Prop(value, "new_issues_prs")) ==>
      r == Some(CategoryRecord(Humanize(key), Prop(value, "new_issues_prs").value, key))
    ensures value.JObj? && !IsArray(Prop(value, "new_issues_prs")) && IsArray(Prop(value, "overall_focus")) ==>
      r == Some(CategoryRecord(Humanize(key) + " - Focus", Prop(value, "overall_focus").value, key))
    ensures value.JObj? && !IsArray(Prop(value, "new_issues_prs")) && !IsArray(Prop(value, "overall_focus")) ==>
      r == Some(CategoryRecord(Humanize(key), JArr([value]), key))
  {
    if value.JArr? then
      Some(CategoryRecord(Humanize(key), value, key))
    else if value.JObj? then
      var issues := Prop(value, "new_issues_prs");
      var focus := Prop(value, "overall_focus");
      if Truthy(issues) && IsArray(issues) then
        Some(CategoryRecord(Humanize(key), issues.value, key))
      else if Truthy(focus) && IsArray(focus) then
        Some(CategoryRecord(Humanize(key) + " - Focus", focus.value, key))
      else
        Some(CategoryRecord(Humanize(key), JArr([value]), key))
    else
      None
  }

  function OptionToSeq<T>(o: Option<T>): seq<T> {
    if o.Some? then [o.value] else []
  }

  /** The categories emitted for the members of an object-valued `categories`,
      in key order. */
  function ConvertedCategories(members: seq<(string, Json)>): seq<Json> {
    if |members| == 0 then []
    else
      var last := members[|members| - 1];
      ConvertedCategories(members[..|members| - 1]) + OptionToSeq(CategoryFor(last.0, last.1))
  }

  /** The members whose value is an array or a non-null object, in order. */
  function KeptMembers(members: seq<(string, Json)>): (r: seq<(string, Json)>)
    ensures forall j :: 0 <= j < |r| ==> r[j] in members && (r[j].1.JArr? || r[j].1.JObj?)
  {
    if |members| == 0 then []
    else
      var last := members[|members| - 1];
      KeptMembers(members[..|members| - 1]) + (if last.1.JArr? || last.1.JObj? then [last] else [])
  }

  /** One category per member whose value is an array or a non-null object,
      in key order; members holding a primitive or null are dropped. */
  lemma {:induction false} ConvertedCategoriesInKeyOrder(members: seq<(string, Json)>)
    ensures |ConvertedCategories(members)| == |KeptMembers(members)|
    ensures forall j :: 0 <= j < |KeptMembers(members)| ==>
      Some(ConvertedCategories(members)[j]) == CategoryFor(KeptMembers(members)[j].0, KeptMembers(members)[j].1)
  {
    if |members| > 0 {
      ConvertedCategoriesInKeyOrder(members[..|members| - 1]);
    }
  }

  /** The categories of an object-valued `categories` field. Object.keys of a
      truthy primitive lists no key (numbers, booleans) or only indices whose
      values are one-character strings, so a primitive yields no category. */
  function CategoriesOf(categories: Json): seq<Json> {
    if categories.JObj? then ConvertedCategories(categories.fields) else []
  }

  /** True when convertJsonFormat returns its argument unchanged
      (utils/dataUtils.js:11-16): a falsy document, a missing or falsy
      `categories`, or one that is already an array. */
  predicate PassesThrough(doc: Json) {
    !Truthy(Some(doc)) || !Truthy(Prop(doc, "categories")) || IsArray(Prop(doc, "categories"))
  }

  /** convertJsonFormat as a function of the document. */
  function Convert(doc: Json): (r: Json)
    ensures PassesThrough(doc) ==> r == doc
    ensures !PassesThrough(doc) ==>
      && r.JObj? && doc.JObj?
      && Prop(r, "categories") == Some(JArr(CategoriesOf(Prop(doc, "categories").value)))
      && |r.fields| == |doc.fields|
      && (forall i :: 0 <= i < |r.fields| ==> r.fields[i].0 == doc.fields[i].0)
      && (forall k :: k != "categories" ==> Prop(r, k) == Prop(doc, k))
  {
    if PassesThrough(doc) then doc
    else JObj(SetField(doc.fields, "categories", JArr(CategoriesOf(Prop(doc, "categories").value))))
  }

  /** convertJsonFormat (utils/dataUtils.js:10-60; the copy at
      live/livenewsviewer.js:19-69 is the same text): a shallow copy of the
      document whose `categories` is rebuilt by pushing one record per key. */
  method ConvertJsonFormat(jsonData: Json) returns (r: Json)
    ensures r == Convert(jsonData)
  {
    if !Truthy(Some(jsonData)) || !Truthy(Prop(jsonData, "categories")) {
      return jsonData;
    }
    if IsArray(Prop(jsonData, "categories")) {
      return jsonData;
    }
    var categories := Prop(jsonData, "categories").value;
    var converted: seq<Json> := [];
    if categories.JObj? {
      var keys := categories.fields;
      var i := 0;
      while i < |keys|
        invariant 0 <= i <= |keys|
        invariant converted == ConvertedCategories(keys[..i])
      {
        var entry := CategoryFor(keys[i].0, keys[i].1);
        if entry.Some? {
          converted := converted + [entry.value];
        }
        assert keys[..i + 1][..i] == keys[..i];
        i := i + 1;
      }
      assert keys[..i] == keys;
    }
    r := JObj(SetField(jsonData.fields, "categories", JArr(converted)));
  }

  /** Converting twice is converting once: the result's `categories` is always
      an array, or the document passed through untouched. */
  lemma ConvertIdempotent(doc: Json)
    ensures Convert(Convert(doc)) == Convert(doc)
  {
  }

  // ---------------------------------------------------------------------------
  // Field probing

  /** The fields extractItemText tries, in order. */
  const TextFields: seq<string> :=
    ["claim", "title", "summary", "text", "feedback_summary", "insight", "observation", "event", "issue"]

  /** The value of the first of `names` that is truthy on `item`. */
  function FirstTruthyProp(item: Json, names: seq<string>): (r: Option<Json>)
    ensures r.None? <==> forall i :: 0 <= i < |names| ==> !Truthy(Prop(item, names[i]))
    ensures r.Some? ==> exists i :: 0 <= i < |names| && Truthy(Prop(item, names[i])) && r == Prop(item, names[i])
                                    && forall j :: 0 <= j < i ==> !Truthy(Prop(item, names[j]))
  {
    if |names| == 0 then None
    else if Truthy(Prop(item, names[0])) then Prop(item, names[0])
    else
      FirstTruthyProp(item, names[1..])
  }

  /** extractItemText (utils/dataUtils.js:67-78, repeated at
      services/storageService.js:107-117): the first truthy field among
      TextFields, else the item serialised by JSON.stringify (a parameter). */
  function ExtractItemText(item: Json, stringify: Json -> string): (r: Json)
    requires item != JNull
    ensures Truthy(Prop(item, "claim")) ==> Some(r) == Prop(item, "claim")
    ensures forall i :: 0 <= i < |TextFields| && Truthy(Prop(item, TextFields[i]))
                        && (forall j :: 0 <= j < i ==> !Truthy(Prop(item, TextFields[j]))) ==>
                        Some(r) == Prop(item, TextFields[i])
    ensures (forall i :: 0 <= i < |TextFields| ==> !Truthy(Prop(item, TextFields[i]))) ==>
      r == JStr(stringify(item))
  {
    var found := FirstTruthyProp(item, TextFields);
    if found.Some? then found.value else JStr(stringify(item))
  }

  /** `v.length` for the values that have one: arrays and strings, and an
      object's own `length` member. */
  function LengthProp(v: Json): Option<Json> {
    match v
    case JArr(items) => Some(JNum(|items| as real))
    case JStr(s) => Some(JNum(|s| as real))
    case JObj(_) => Prop(v, "length")
    case _ => None
  }

  /** `v[0]`: an array's first element, a string's first character, an
      object's member "0". */
  function Index0(v: Json): Option<Json> {
    match v
    case JArr(items) => if |items| > 0 then Some(items[0]) else None
    case JStr(s) => if |s| > 0 then Some(JStr([s[0]])) else None
    case JObj(_) => Prop(v, "0")
    case _ => None
  }

  const NoThumbnail := "images/nothumb.png"

  /** getImageUrl (utils/dataUtils.js:136-140): a truthy `url` wins; then the
      first element of a truthy `images` whose length is truthy; otherwise the
      placeholder image. A non-empty string `images` gives its first character,
      an object with a truthy `length` its member "0" (`undefined` when it has
      none), and a truthy number or boolean, which has no `length`, the
      placeholder. */
  function GetImageUrl(item: Json): (r: Option<Json>)
    requires item != JNull
    ensures Truthy(Prop(item, "url")) ==> r == Prop(item, "url")
    ensures !Truthy(Prop(item, "url")) && IsArray(Prop(item, "images")) && |Prop(item, "images").value.items| > 0 ==>
      r == Some(Prop(item, "images").value.items[0])
    ensures !Truthy(Prop(item, "url")) && IsArray(Prop(item, "images")) && |Prop(item, "images").value.items| == 0 ==>
      r == Some(JStr(NoThumbnail))
    ensures !Truthy(Prop(item, "url")) && !Truthy(Prop(item, "images")) ==> r == Some(JStr(NoThumbnail))
    ensures (!Truthy(Prop(item, "url")) && Prop(item, "images").Some? && Prop(item, "images").value.JStr? &&
             |Prop(item, "images").value.s| > 0)
            ==> r == Some(JStr([Prop(item, "images").value.s[0]]))
    ensures (!Truthy(Prop(item, "url")) && Prop(item, "images").Some? && Prop(item, "images").value.JObj? &&
             Truthy(LengthProp(Prop(item, "images").value)))
            ==> r == Prop(Prop(item, "images").value, "0")
    ensures (!Truthy(Prop(item, "url")) && Truthy(Prop(item, "images")) &&
             !Truthy(LengthProp(Prop(item, "images").value)))
            ==> r == Some(JStr(NoThumbnail))
  {
    var url := Prop(item, "url");
    var images := Prop(item, "images");
    if Truthy(url) then url
    else if Truthy(images) && Truthy(LengthProp(images.value)) then Index0(images.value)
    else Some(JStr(NoThumbnail))
  }

  /** Which markup getSourceLinks builds: nothing, one link, or a toggled list
      of links (the random element id of that list is not modelled). */
  datatype SourceLinks = NoLinks | SingleLink(url: Json) | LinkList(urls: seq<Json>)

  function LinksFrom(urls: seq<Json>): (r: SourceLinks)
    ensures |urls| == 0 <==> r == NoLinks
    ensures |urls| == 1 <==> r.SingleLink?
    ensures r.SingleLink? ==> r.url == urls[0]
    ensures |urls| > 1 <==> r == LinkList(urls)
  {
    if |urls| == 1 then SingleLink(urls[0])
    else if |urls| > 1 then LinkList(urls)
    else NoLinks
  }

  /** The branch selection of getSourceLinks (utils/dataUtils.js:85-129):
      `source` is used whenever it is an array, even an empty one (which gives
      no links, and `sources` is then never read); `sources` only when `source`
      is not an array. */
  function GetSourceLinks(item: Json): (r: SourceLinks)
    requires item != JNull
    ensures IsArray(Prop(item, "source")) ==> r == LinksFrom(Prop(item, "source").value.items)
    ensures Prop(item, "source") == Some(JArr([])) ==> r == NoLinks
    ensures !IsArray(Prop(item, "source")) && IsArray(Prop(item, "sources")) ==>
      r == LinksFrom(Prop(item, "sources").value.items)
    ensures !IsArray(Prop(item, "source")) && !IsArray(Prop(item, "sources")) ==> r == NoLinks
  {
    var source := Prop(item, "source");
    var sources := Prop(item, "sources");
    if Truthy(source) && IsArray(source) then LinksFrom(source.value.items)
    else if Truthy(sources) && IsArray(sources) then LinksFrom(sources.value.items)
    else NoLinks
  }
}

/** script.js: the original single-file page. Its curated list is changed in
    place (push, splice), duplicates are recognised by the raw `text` field,
    and the curated document looks categories up in the raw feed. */
module Script {
  import opened Wrappers
  import opened Json
  import opened Curation
  import DateUtils
  import DateService
  import StorageService

  /** `item.text` of a non-null item. */
  function TextOf(item: Json): Option<Json> {
    Prop(item, "text")
  }

  /** `curatedItems.some(item => item.text === data.text)`: Some(answer), or
      None when reading `.text` of a null throws. Reading `data.text` happens
      only inside the callback, so a null `data` throws only on a non-empty
      list. */
  function SomeSameText(items: seq<Json>, data: Json): (r: Option<bool>)
    ensures r == Some(false) <==>
      forall i :: 0 <= i < |items| ==> items[i] != JNull && data != JNull && !StrictEq(TextOf(items[i]), TextOf(data))
    ensures r == Some(true) ==> data != JNull && exists i :: 0 <= i < |items| && items[i] != JNull && StrictEq(TextOf(items[i]), TextOf(data))
    ensures r.None? ==> exists i :: 0 <= i < |items| && (items[i] == JNull || data == JNull)
  {
    if |items| == 0 then Some(false)
    else if items[0] == JNull || data == JNull then None
    else if StrictEq(TextOf(items[0]), TextOf(data)) then Some(true)
    else
      var r := SomeSameText(items[1..], data);
      assert forall i :: 1 <= i < |items| ==> items[i] == items[1..][i - 1];
      r
  }

  /** The toast the drop handler shows. */
  datatype DropOutcome = DropAdded | DropDuplicate | DropError

  /** The drop handler's decision (script.js:620-638). */
  function DropDecision(items: seq<Json>, data: Json): (r: DropOutcome)
    ensures r == DropAdded <==> SomeSameText(items, data) == Some(false)
    ensures r == DropDuplicate <==> SomeSameText(items, data) == Some(true)
  {
    match SomeSameText(items, data)
    case None => DropError
    case Some(true) => DropDuplicate
    case Some(false) => DropAdded
  }

  /** No two curated items have `===` texts. Arrays and objects are never
      `===`, and neither are two different primitives. */
  predicate TextsDistinct(items: seq<Json>) {
    forall i, j :: 0 <= i < j < |items| ==> !StrictEq(TextOf(items[i]), TextOf(items[j]))
  }

  /** A drop that adds keeps the texts distinct. */
  lemma {:induction false} DropKeepsTextsDistinct(items: seq<Json>, data: Json)
    requires TextsDistinct(items) && DropDecision(items, data) == DropAdded
    ensures TextsDistinct(items + [data])
  {
    var r := items + [data];
    forall i, j | 0 <= i < j < |r|
      ensures !StrictEq(TextOf(r[i]), TextOf(r[j]))
    {
      if j == |items| {
        assert r[i] == items[i] && r[j] == data;
      } else {
        assert r[i] == items[i] && r[j] == items[j];
      }
    }
  }

  /** Items lacking `text` all compare equal (`undefined === undefined`), so a
      list with distinct texts holds at most one of them. */
  lemma AtMostOneTextless(items: seq<Json>, i: int, j: int)
    requires TextsDistinct(items)
    requires 0 <= i < |items| && 0 <= j < |items| && TextOf(items[i]).None? && TextOf(items[j]).None?
    ensures i == j
  {
    if i < j {
      assert StrictEq(TextOf(items[i]), TextOf(items[j]));
    } else if j < i {
      assert StrictEq(TextOf(items[j]), TextOf(items[i]));
    }
  }

  /** A second drop of the same item is refused once the first was added,
      as long as its text is a primitive. */
  lemma DropTwiceIsDuplicate(items: seq<Json>, data: Json)
    requires data != JNull && DropDecision(items, data) == DropAdded
    requires StrictEq(TextOf(data), TextOf(data))
    ensures DropDecision(items + [data], data) == DropDuplicate
  {
    var r := items + [data];
    assert r[|items|] == data;
    assert SomeSameText(items, data) == Some(false);
    assert forall i :: 0 <= i < |r| ==> r[i] != JNull;
    assert !(forall i :: 0 <= i < |r| ==> r[i] != JNull && data != JNull && !StrictEq(TextOf(r[i]), TextOf(data)));
  }

  /** `items.splice(index, 1)` on what is left: a negative index counts from
      the end (clamped at 0), an index at or past the end removes nothing. */
  function Spliced(items: seq<Json>, index: int): (r: seq<Json>)
    ensures 0 <= index < |items| ==>
      |r| == |items| - 1 &&
      (forall k :: 0 <= k < index ==> r[k] == items[k]) &&
      (forall k :: index <= k < |r| ==> r[k] == items[k + 1])
    ensures index >= |items| ==> r == items
    ensures -|items| <= index < 0 ==> r == items[..|items| + index] + items[|items| + index + 1..]
    ensures index < -|items| ==> r == if |items| == 0 then items else items[1..]
  {
    var start := if index < 0 then (if |items| + index < 0 then 0 else |items| + index)
                 else (if index < |items| then index else |items|);
    if start < |items| then items[..start] + items[start + 1..] else items
  }

  /** For an index inside the list, the in-place removal and the pure
      removal of services/storageService.js agree. */
  lemma SplicedIsFilterOutIndex(items: seq<Json>, index: int)
    requires 0 <= index < |items|
    ensures Spliced(items, index) == StorageService.FilterOutIndex(items, index)
  {
    assert Spliced(items, index) == items[..index] + items[index + 1..];
  }

  /** Removing keeps the texts distinct. */
  lemma {:induction false} SplicedKeepsTextsDistinct(items: seq<Json>, index: int)
    requires TextsDistinct(items)
    ensures TextsDistinct(Spliced(items, index))
  {
    var start := if index < 0 then (if |items| + index < 0 then 0 else |items| + index)
                 else (if index < |items| then index else |items|);
    if start < |items| {
      assert Spliced(items, index) == items[..start] + items[start + 1..];
      RemoveAtKeepsTextsDistinct(items, start);
    }
  }

  /** Dropping the element at `start` keeps the texts distinct. */
  lemma RemoveAtKeepsTextsDistinct(items: seq<Json>, start: nat)
    requires TextsDistinct(items) && start < |items|
    ensures TextsDistinct(items[..start] + items[start + 1..])
  {
    var r := items[..start] + items[start + 1..];
    assert forall k :: 0 <= k < start ==> r[k] == items[k];
    assert forall k :: start <= k < |r| ==> r[k] == items[k + 1];
    forall i, j | 0 <= i < j < |r|
      ensures !StrictEq(TextOf(r[i]), TextOf(r[j]))
    {
      var i' := if i < start then i else i + 1;
      var j' := if j < start then j else j + 1;
      assert r[i] == items[i'] && r[j] == items[j'] && i' < j';
    }
  }

  /** What the curated panel shows for an item (script.js:654-661): "No
      content" for a falsy `text`, a string text cut to its first 50
      characters plus "..." when longer, otherwise the text. */
  datatype Shown = ShownText(text: string) | ShownValue(value: Json) | DisplayThrows

  function DisplayText(item: Json): (r: Shown)
    ensures item == JNull <==> r == DisplayThrows
    ensures item != JNull && !Truthy(TextOf(item)) ==> r == ShownText("No content")
    ensures forall s :: item != JNull && TextOf(item) == Some(JStr(s)) && s != "" ==>
      r.ShownText? && (|s| <= 50 ==> r.text == s) && (|s| > 50 ==> |r.text| == 53 && r.text[..50] == s[..50] && r.text[50..] == "...")
  {
    if item == JNull then DisplayThrows
    else
      match TextOf(item)
      case Some(JStr(s)) =>
        if s == "" then ShownText("No content")
        else if |s| > 50 then ShownText(s[..50] + "...")
        else ShownText(s)
      case Some(v) => if Truthy(Some(v)) then ShownValue(v) else ShownText("No content")
      case None => ShownText("No content")
  }

  /** A shown string text is never longer than 53 characters. */
  lemma DisplayTextBounded(item: Json)
    requires DisplayText(item).ShownText?
    ensures |DisplayText(item).text| <= 53
  {
  }

  /** Where the date header of loadNews comes from (script.js:360-381). */
  datatype HeaderSource =
    | NoHeader
    | FromDateField(date: Json)
    | FromTitleDate(seconds: int)
    | VerbatimTitle(title: string)
    | HeaderThrows

  /** A truthy `date` field wins; then a truthy `title`, formatted from the
      date it contains when extractDateFromTitle gives a truthy result and
      shown as it is otherwise; a truthy title that is not a string has no
      `.match` and throws. */
  function HeaderSourceOf(doc: Json): (r: HeaderSource)
    ensures doc == JNull ==> r == HeaderThrows
    ensures doc != JNull && Truthy(Prop(doc, "date")) ==> r == FromDateField(Prop(doc, "date").value)
    ensures doc != JNull && !Truthy(Prop(doc, "date")) && !Truthy(Prop(doc, "title")) ==> r == NoHeader
    ensures doc != JNull && !Truthy(Prop(doc, "date")) && Truthy(Prop(doc, "title")) && !Prop(doc, "title").value.JStr? ==>
      r == HeaderThrows
    ensures forall s :: doc != JNull && !Truthy(Prop(doc, "date")) && Prop(doc, "title") == Some(JStr(s)) && s != "" ==>
      r == match DateUtils.ExtractDateFromTitle(s)
           case Some(v) => if v != 0 then FromTitleDate(v) else VerbatimTitle(s)
           case None => VerbatimTitle(s)
  {
    if doc == JNull then HeaderThrows
    else
      var date := Prop(doc, "date");
      var title := Prop(doc, "title");
      if Truthy(date) then FromDateField(date.value)
      else if !Truthy(title) then NoHeader
      else match title.value
        case JStr(s) =>
          (match DateUtils.ExtractDateFromTitle(s)
           case Some(v) => if v != 0 then FromTitleDate(v) else VerbatimTitle(s)
           case None => VerbatimTitle(s))
        case _ => HeaderThrows
  }

  /** A title without a date string is shown verbatim. */
  lemma TitleWithoutDateIsVerbatim(doc: Json, s: string)
    requires doc.JObj? && !Truthy(Prop(doc, "date")) && Prop(doc, "title") == Some(JStr(s)) && s != ""
    requires forall i :: !DateUtils.DateAt(s, i)
    ensures HeaderSourceOf(doc) == VerbatimTitle(s)
  {
  }

  /** Any title that starts with the date 1970-01-01 extracts to 0. */
  lemma EpochTitleExtractsToZero(s: string)
    requires |s| >= 10 && s[..10] == "1970-01-01"
    ensures DateUtils.ExtractDateFromTitle(s) == Some(0)
  {
    var d := s[..10];
    DateUtils.EpochIsZero(d);
    assert d[..4] == "1970" && d[5..7] == "01" && d[8..] == "01";
    assert DateService.IsDateString(d);
    assert s[0..10] == d;
    assert DateUtils.DateAt(s, 0);
  }

  /** A title starting with the date 1970-01-01 extracts to 0, which is
      falsy, so that title is shown verbatim instead of formatted. */
  lemma EpochTitleIsVerbatim(doc: Json, s: string)
    requires doc.JObj? && !Truthy(Prop(doc, "date")) && Prop(doc, "title") == Some(JStr(s))
    requires |s| >= 10 && s[..10] == "1970-01-01"
    ensures HeaderSourceOf(doc) == VerbatimTitle(s)
  {
    EpochTitleExtractsToZero(s);
  }

  /** The page state the curation handlers work on (script.js:4-6). */
  class CurationPage {
    var curatedItems: seq<Json>
    var originalJsonData: Json
    var currentCuratedJson: Option<Json>

    constructor (saved: seq<Json>)
      ensures curatedItems == saved && originalJsonData == JNull && currentCuratedJson == None
    {
      curatedItems := saved;
      originalJsonData := JNull;
      currentCuratedJson := None;
    }

    /** The drop handler (script.js:620-638): the parsed item is pushed onto
        the list exactly when no curated item has the same `text`. */
    method Drop(data: Json) returns (outcome: DropOutcome)
      modifies this`curatedItems
      ensures outcome == DropDecision(old(curatedItems), data)
      ensures curatedItems == if outcome == DropAdded then old(curatedItems) + [data] else old(curatedItems)
    {
      outcome := DropDecision(curatedItems, data);
      if outcome == DropAdded {
        curatedItems := curatedItems + [data];
      }
    }

    /** removeItem (script.js:680-684). */
    method RemoveItem(index: int)
      modifies this`curatedItems
      ensures curatedItems == Spliced(old(curatedItems), index)
    {
      curatedItems := Spliced(curatedItems, index);
    }

    /** clearCuratedItems (script.js:102-109): nothing on an empty list;
        otherwise the list is emptied when the user confirms. */
    method ClearCuratedItems(confirmed: bool) returns (asked: bool)
      modifies this`curatedItems
      ensures asked <==> |old(curatedItems)| > 0
      ensures curatedItems == if asked && confirmed then [] else old(curatedItems)
    {
      asked := |curatedItems| > 0;
      if asked && confirmed {
        curatedItems := [];
      }
    }

    /** generateCuratedJson (script.js:298-333): categories are looked up in
        the raw document, so anything but an array there throws. */
    method GenerateCuratedJson(isoDate: string, str: Json -> string) returns (outcome: CuratedOutcome)
      modifies this`currentCuratedJson
      ensures outcome == CuratedSpec(originalJsonData, Prop(originalJsonData, "categories"), curatedItems, isoDate, str)
      ensures currentCuratedJson == if outcome.CuratedDocument? then Some(outcome.doc) else old(currentCuratedJson)
    {
      outcome := BuildCuratedJson(originalJsonData, Prop(originalJsonData, "categories"), curatedItems, isoDate, str);
      if outcome.CuratedDocument? {
        currentCuratedJson := Some(outcome.doc);
      }
    }
  }

  /** Object-valued categories, which the converted feed format allows, make
      this generateCuratedJson throw. */
  lemma ObjectCategoriesThrow(original: Json, items: seq<Json>, isoDate: string, str: Json -> string)
    requires original.JObj? && |items| > 0
    requires Prop(original, "categories").Some? && Prop(original, "categories").value.JObj?
    ensures CuratedSpec(original, Prop(original, "categories"), items, isoDate, str).CuratedThrows?
  {
  }
}

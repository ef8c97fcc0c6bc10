/** services/storageService.js: the pure curated-list operations. They return
    a new list and never change the one they are given; whether localStorage
    accepted the save is a boolean parameter. */
module StorageService {
  import opened Wrappers
  import opened Json
  import opened DataUtils

  /** The object the add and remove operations return. */
  datatype CurationResult = CurationResult(success: bool, items: seq<Json>, message: string)

  /** Property access on null throws, so every operation requires a list
      without null items. */
  predicate NoNulls(items: seq<Json>) {
    forall i :: 0 <= i < |items| ==> items[i] != JNull
  }

  /** `extractItemText(a) === extractItemText(b)`. */
  predicate SameText(a: Json, b: Json, stringify: Json -> string)
    requires a != JNull && b != JNull
  {
    StrictEq(Some(ExtractItemText(a, stringify)), Some(ExtractItemText(b, stringify)))
  }

  /** The items itemExists and addCuratedItem accept without throwing: a list
      without null items, and a new item that is not null unless the list is
      empty (then `some` never runs its callback). */
  predicate Readable(curatedItems: seq<Json>, newItem: Json) {
    NoNulls(curatedItems) && (newItem != JNull || |curatedItems| == 0)
  }

  /** itemExists (services/storageService.js:56-62): `some` over the list. */
  function ItemExists(curatedItems: seq<Json>, newItem: Json, stringify: Json -> string): (r: bool)
    requires Readable(curatedItems, newItem)
    ensures |curatedItems| == 0 ==> !r
    ensures r <==> exists i :: 0 <= i < |curatedItems| && newItem != JNull && SameText(curatedItems[i], newItem, stringify)
  {
    if |curatedItems| == 0 then false
    else
      var r := AnyItem(curatedItems, item => item != JNull && newItem != JNull && SameText(item, newItem, stringify));
      assert forall i :: 0 <= i < |curatedItems| ==> curatedItems[i] != JNull;
      r
  }

  /** Array.prototype.some with a predicate that does not throw. */
  function AnyItem(items: seq<Json>, p: Json -> bool): (r: bool)
    ensures r <==> exists i :: 0 <= i < |items| && p(items[i])
  {
    if |items| == 0 then false
    else
      var last := |items| - 1;
      assert forall i :: 0 <= i < last ==> items[..last][i] == items[i];
      AnyItem(items[..last], p) || p(items[last])
  }

  const AlreadyCurated := "Item already in curated list"
  const Added := "Item added to curated list"
  const AddedNotSaved := "Item added but failed to save"
  const InvalidIndex := "Invalid index"
  const Removed := "Item removed from curated list"
  const RemovedNotSaved := "Item removed but failed to save"

  /** addCuratedItem (services/storageService.js:70-83). A duplicate is
      refused and the list comes back as it was; otherwise the item is
      appended and the add succeeds whatever the save did, only the message
      telling the two outcomes apart. */
  function AddCuratedItem(curatedItems: seq<Json>, newItem: Json, stringify: Json -> string, saved: bool): (r: CurationResult)
    requires Readable(curatedItems, newItem)
    ensures ItemExists(curatedItems, newItem, stringify) ==> r == CurationResult(false, curatedItems, AlreadyCurated)
    ensures !ItemExists(curatedItems, newItem, stringify) ==>
      && r.success
      && |r.items| == |curatedItems| + 1
      && r.items[..|curatedItems|] == curatedItems
      && r.items[|curatedItems|] == newItem
      && r.message == (if saved then Added else AddedNotSaved)
    ensures newItem != JNull ==> NoNulls(r.items)
  {
    if ItemExists(curatedItems, newItem, stringify) then
      CurationResult(false, curatedItems, AlreadyCurated)
    else
      CurationResult(true, curatedItems + [newItem], if saved then Added else AddedNotSaved)
  }

  /** No two items of the list have the same extracted text. */
  predicate DistinctTexts(items: seq<Json>, stringify: Json -> string)
    requires NoNulls(items)
  {
    forall i, j :: 0 <= i < j < |items| ==> !SameText(items[i], items[j], stringify)
  }

  /** Adding through addCuratedItem keeps the extracted texts pairwise
      distinct. */
  lemma {:induction false} AddKeepsTextsDistinct(curatedItems: seq<Json>, newItem: Json, stringify: Json -> string, saved: bool)
    requires NoNulls(curatedItems) && newItem != JNull
    requires DistinctTexts(curatedItems, stringify)
    ensures DistinctTexts(AddCuratedItem(curatedItems, newItem, stringify, saved).items, stringify)
  {
    var r := AddCuratedItem(curatedItems, newItem, stringify, saved);
    if !ItemExists(curatedItems, newItem, stringify) {
      forall i, j | 0 <= i < j < |r.items|
        ensures !SameText(r.items[i], r.items[j], stringify)
      {
        if j == |curatedItems| {
          assert r.items[i] == curatedItems[i];
        } else {
          assert r.items[i] == curatedItems[i] && r.items[j] == curatedItems[j];
        }
      }
    }
  }

  /** `items.filter((_, i) => i !== index)`. */
  function FilterOutIndex(items: seq<Json>, index: int): (r: seq<Json>)
    ensures 0 <= index < |items| ==> r == items[..index] + items[index + 1..]
    ensures !(0 <= index < |items|) ==> r == items
  {
    if |items| == 0 then []
    else
      var last := |items| - 1;
      FilterOutIndex(items[..last], index) + (if last == index then [] else [items[last]])
  }

  /** removeCuratedItem (services/storageService.js:91-104). An index outside
      the list is refused with the list unchanged; otherwise exactly that
      element is dropped, the others keep their order, and the removal
      succeeds whatever the save did. */
  function RemoveCuratedItem(curatedItems: seq<Json>, index: int, saved: bool): (r: CurationResult)
    ensures (index < 0 || index >= |curatedItems|) ==> r == CurationResult(false, curatedItems, InvalidIndex)
    ensures 0 <= index < |curatedItems| ==>
      && r.success
      && |r.items| == |curatedItems| - 1
      && (forall k :: 0 <= k < index ==> r.items[k] == curatedItems[k])
      && (forall k :: index <= k < |r.items| ==> r.items[k] == curatedItems[k + 1])
      && r.message == (if saved then Removed else RemovedNotSaved)
  {
    if index < 0 || index >= |curatedItems| then
      CurationResult(false, curatedItems, InvalidIndex)
    else
      CurationResult(true, FilterOutIndex(curatedItems, index), if saved then Removed else RemovedNotSaved)
  }

  /** Removing what was just added restores the list. */
  lemma AddThenRemoveLast(curatedItems: seq<Json>, newItem: Json, stringify: Json -> string, saved: bool, saved2: bool)
    requires NoNulls(curatedItems) && newItem != JNull
    requires !ItemExists(curatedItems, newItem, stringify)
    ensures RemoveCuratedItem(AddCuratedItem(curatedItems, newItem, stringify, saved).items, |curatedItems|, saved2).items
            == curatedItems
  {
  }
}

/** scripts/app.js: the browser page whose date navigation treats the
    current date `today` as a live "today" state backed by the default feed.
    "today" (getCurrentDate) is a parameter of every handler; a handler's
    `load` result is the feed URL it asks to load, if any. */
module ScriptsApp {
  import opened Wrappers
  import opened Json
  import opened DateService
  import opened DataUtils
  import opened StorageService
  import opened Curation
  import FilterManager

  const DefaultUrl := "https://elizaos.github.io/knowledge/the-council/facts/daily.json"

  /** `!currentDate || currentDate === getCurrentDate()`. */
  predicate ViewingDaily(current: string, today: string) {
    current == "" || current == today
  }

  /** What a navigation handler does: nothing, go to an archived date, or go
      back to the live feed. */
  datatype Move = Stay | GoTo(date: string) | BackToToday

  /** navigateToPreviousDate (scripts/app.js:777-804). From the today state
      it goes to the newest archived date; from a historical date at index i
      to index i + 1 when there is one; an unlisted date counts as index -1
      and so goes to the newest date. */
  function PreviousMove(dates: seq<DateEntry>, current: string, today: string): (m: Move)
    ensures !m.BackToToday?
    ensures m.GoTo? ==> Listed(dates, m.date)
    ensures ViewingDaily(current, today) || !Listed(dates, current) ==>
      m == if |dates| > 0 then GoTo(dates[0].date) else Stay
    ensures !ViewingDaily(current, today) && Listed(dates, current) ==>
      var i := IndexOfDate(dates, current);
      m == if i < |dates| - 1 then GoTo(dates[i + 1].date) else Stay
  {
    if ViewingDaily(current, today) then
      if |dates| > 0 then GoTo(dates[0].date) else Stay
    else
      var i := IndexOfDate(dates, current);
      if i < |dates| - 1 then GoTo(dates[i + 1].date) else Stay
  }

  /** navigateToNextDate (scripts/app.js:809-836). From the today state or an
      unlisted date nothing happens; from index i > 0 it goes to index i - 1;
      from index 0 back to the live feed. */
  function NextMove(dates: seq<DateEntry>, current: string, today: string): (m: Move)
    ensures m.GoTo? ==> Listed(dates, m.date)
    ensures ViewingDaily(current, today) || !Listed(dates, current) ==> m == Stay
    ensures !ViewingDaily(current, today) && Listed(dates, current) ==>
      var i := IndexOfDate(dates, current);
      m == if i > 0 then GoTo(dates[i - 1].date) else BackToToday
  {
    if ViewingDaily(current, today) then Stay
    else
      var i := IndexOfDate(dates, current);
      if i > 0 then GoTo(dates[i - 1].date)
      else if i == 0 then BackToToday
      else Stay
  }

  datatype ButtonState = ButtonState(prevDisabled: bool, nextDisabled: bool)

  /** updateDateNavigationButtons (scripts/app.js:743-772). In the today state
      Previous is disabled iff the archive is empty and Next always is;
      otherwise an unlisted date counts as index 0, Previous is disabled from
      the last index on and Next up to index 0. */
  function Buttons(dates: seq<DateEntry>, current: string, today: string): (b: ButtonState)
    ensures ViewingDaily(current, today) ==> b == ButtonState(|dates| == 0, true)
    ensures !ViewingDaily(current, today) && !Listed(dates, current) ==> b == ButtonState(|dates| <= 1, true)
    ensures !ViewingDaily(current, today) && Listed(dates, current) ==>
      var i := IndexOfDate(dates, current);
      b == ButtonState(i >= |dates| - 1, i <= 0)
  {
    if ViewingDaily(current, today) then ButtonState(|dates| == 0, true)
    else
      var found := IndexOfDate(dates, current);
      var i := if found == -1 && |dates| > 0 then 0 else found;
      ButtonState(i >= |dates| - 1, i <= 0)
  }

  /** At the newest archived date the Next button is disabled, yet the
      navigation it stands for (also bound to the right arrow key) goes back
      to today. */
  lemma NextButtonDisagreesAtNewest(dates: seq<DateEntry>, current: string, today: string)
    requires !ViewingDaily(current, today) && |dates| > 0 && dates[0].date == current
    ensures Buttons(dates, current, today).nextDisabled
    ensures NextMove(dates, current, today) == BackToToday
  {
    assert Listed(dates, current);
  }

  /** With a single archived date and an unlisted current date the Previous
      button is disabled, yet navigateToPreviousDate moves to that date. */
  lemma PreviousButtonDisagreesWhenUnlisted(dates: seq<DateEntry>, current: string, today: string)
    requires !ViewingDaily(current, today) && !Listed(dates, current) && |dates| == 1
    ensures Buttons(dates, current, today).prevDisabled
    ensures PreviousMove(dates, current, today) == GoTo(dates[0].date)
  {
  }

  /** On a listed date, each button is disabled exactly when its navigation
      does not move to another archived date. */
  lemma {:induction false} ButtonsAgreeWhenListed(dates: seq<DateEntry>, current: string, today: string)
    requires !ViewingDaily(current, today) && Listed(dates, current)
    ensures Buttons(dates, current, today).prevDisabled <==> PreviousMove(dates, current, today) == Stay
    ensures Buttons(dates, current, today).nextDisabled <==> !NextMove(dates, current, today).GoTo?
  {
    var i := IndexOfDate(dates, current);
    assert 0 <= i;
  }

  /** In the today state the buttons match the navigation. */
  lemma ButtonsAgreeWhenDaily(dates: seq<DateEntry>, current: string, today: string)
    requires ViewingDaily(current, today)
    ensures Buttons(dates, current, today).prevDisabled <==> PreviousMove(dates, current, today) == Stay
    ensures Buttons(dates, current, today).nextDisabled && NextMove(dates, current, today) == Stay
  {
  }

  /** The new `currentDate` and the load request of a move. */
  predicate Moved(m: Move, before: string, today: string, after: string, load: Option<string>) {
    match m
    case Stay => after == before && load.None?
    case GoTo(d) => after == d && load == Some(GetDateUrl(d))
    case BackToToday => after == today && load == Some(DefaultUrl)
  }

  /** updateDateDisplay (scripts/app.js:722-738): 'Today' exactly in the
      today state, the MM/DD/YY form of the date otherwise. */
  function DateDisplay(current: string, today: string): (shown: string)
    requires ViewingDaily(current, today) || IsDateString(current)
    ensures shown == "Today" <==> ViewingDaily(current, today)
    ensures !ViewingDaily(current, today) ==> shown == FormatDateForDisplay(current)
  {
    if ViewingDaily(current, today) then "Today"
    else
      var r := FormatDateForDisplay(current);
      assert r[2] == '/';
      r
  }

  /** The module-level state of scripts/app.js (scripts/app.js:34-41) that
      the modelled handlers read and write. */
  class Browser {
    var dates: seq<DateEntry>
    var currentDate: string
    var activeFilters: seq<string>
    var curatedItems: seq<Json>
    var originalJsonData: Json
    var currentCuratedJson: Option<Json>

    constructor (today: string)
      ensures dates == [] && currentDate == today && activeFilters == [] && curatedItems == []
      ensures originalJsonData == JNull && currentCuratedJson == None
    {
      dates := [];
      currentDate := today;
      activeFilters := [];
      curatedItems := [];
      originalJsonData := JNull;
      currentCuratedJson := None;
    }

    method Perform(m: Move, today: string) returns (load: Option<string>)
      modifies this`currentDate
      ensures Moved(m, old(currentDate), today, currentDate, load)
    {
      match m
      case Stay => load := None;
      case GoTo(d) =>
        load := Some(GetDateUrl(d));
        currentDate := d;
      case BackToToday =>
        load := Some(DefaultUrl);
        currentDate := today;
    }

    /** navigateToPreviousDate (scripts/app.js:777-804). */
    method NavigateToPreviousDate(today: string) returns (load: Option<string>)
      modifies this`currentDate
      ensures Moved(PreviousMove(dates, old(currentDate), today), old(currentDate), today, currentDate, load)
      ensures currentDate == old(currentDate) || Listed(dates, currentDate)
    {
      load := Perform(PreviousMove(dates, currentDate, today), today);
    }

    /** navigateToNextDate (scripts/app.js:809-836). */
    method NavigateToNextDate(today: string) returns (load: Option<string>)
      modifies this`currentDate
      ensures Moved(NextMove(dates, old(currentDate), today), old(currentDate), today, currentDate, load)
      ensures currentDate == old(currentDate) || currentDate == today || Listed(dates, currentDate)
    {
      load := Perform(NextMove(dates, currentDate, today), today);
    }

    /** navigateToToday (scripts/app.js:841-848): always the live feed. */
    method NavigateToToday(today: string) returns (load: Option<string>)
      modifies this`currentDate
      ensures currentDate == today && load == Some(DefaultUrl)
    {
      load := Some(DefaultUrl);
      currentDate := today;
    }

    /** showDateCalendar (scripts/app.js:853-873): refused on an empty
        archive; otherwise `pick` is the archived date chosen, if any (the
        calendar offers only archived dates). Choosing today's date means
        navigateToToday. */
    method ShowDateCalendar(today: string, pick: Option<nat>) returns (isOpen: bool, load: Option<string>)
      requires pick.Some? ==> pick.value < |dates|
      modifies this`currentDate
      ensures isOpen <==> |dates| > 0
      ensures !isOpen || pick.None? ==> currentDate == old(currentDate) && load.None?
      ensures isOpen && pick.Some? && dates[pick.value].date == today ==>
        currentDate == today && load == Some(DefaultUrl)
      ensures isOpen && pick.Some? && dates[pick.value].date != today ==>
        currentDate == dates[pick.value].date && load == Some(GetDateUrl(dates[pick.value].date))
    {
      if |dates| == 0 {
        return false, None;
      }
      isOpen, load := true, None;
      if pick.Some? {
        var selected := dates[pick.value].date;
        if selected == today {
          load := NavigateToToday(today);
        } else {
          currentDate := selected;
          load := Some(GetDateUrl(selected));
        }
      }
    }

    /** toggleCategoryFilter (scripts/app.js:498-521), the same rule as the
        refactored filter manager. */
    method ToggleCategoryFilter(category: string)
      modifies this`activeFilters
      ensures activeFilters == FilterManager.Toggled(old(activeFilters), category)
    {
      if FilterManager.All in activeFilters {
        activeFilters := [];
      }
      if category in activeFilters {
        activeFilters := FilterManager.Without(activeFilters, category);
        if |activeFilters| == 0 {
          activeFilters := [FilterManager.All];
        }
      } else {
        activeFilters := activeFilters + [category];
      }
    }

    /** The drop handler (scripts/app.js:582-604): the list becomes the
        result of addCuratedItem when that succeeds. */
    method DropItem(data: Json, stringify: Json -> string, saved: bool) returns (result: CurationResult)
      requires NoNulls(curatedItems) && data != JNull
      modifies this`curatedItems
      ensures result == AddCuratedItem(old(curatedItems), data, stringify, saved)
      ensures curatedItems == result.items && NoNulls(curatedItems)
    {
      result := AddCuratedItem(curatedItems, data, stringify, saved);
      if result.success {
        curatedItems := result.items;
      }
    }

    /** removeItem (scripts/app.js:655-664): the list becomes the result of
        removeCuratedItem when that succeeds. */
    method RemoveItem(index: int, saved: bool) returns (result: CurationResult)
      modifies this`curatedItems
      ensures result == RemoveCuratedItem(old(curatedItems), index, saved)
      ensures curatedItems == result.items
      ensures NoNulls(old(curatedItems)) ==> NoNulls(curatedItems)
    {
      result := RemoveCuratedItem(curatedItems, index, saved);
      if result.success {
        curatedItems := result.items;
      }
    }

    /** clearCuratedItems (scripts/app.js:258-267): nothing to do on an empty
        list; otherwise the list is emptied when the user confirms. */
    method ClearCuratedItems(confirmed: bool) returns (asked: bool)
      modifies this`curatedItems
      ensures asked <==> |old(curatedItems)| > 0
      ensures curatedItems == if asked && confirmed then [] else old(curatedItems)
    {
      asked := |curatedItems| > 0;
      if asked && confirmed {
        curatedItems := [];
      }
    }

    /** generateCuratedJson (scripts/app.js:291-329): categories are looked
        up in the converted original, so object-valued categories work. The
        ISO date of the default title and String() are parameters. */
    method GenerateCuratedJson(isoDate: string, str: Json -> string) returns (outcome: CuratedOutcome)
      modifies this`currentCuratedJson
      ensures outcome == CuratedSpec(originalJsonData, Prop(Convert(originalJsonData), "categories"), curatedItems, isoDate, str)
      ensures currentCuratedJson == if outcome.CuratedDocument? then Some(outcome.doc) else old(currentCuratedJson)
    {
      if !Truthy(Some(originalJsonData)) || |curatedItems| == 0 {
        return NothingCurated;
      }
      var converted := ConvertJsonFormat(originalJsonData);
      outcome := BuildCuratedJson(originalJsonData, Prop(converted, "categories"), curatedItems, isoDate, str);
      if outcome.CuratedDocument? {
        currentCuratedJson := Some(outcome.doc);
      }
    }
  }

  /** Because the lookup goes through the converted document, a document
      whose categories are a non-empty object still gets an array to search;
      only a missing or falsy `categories` makes the lookup throw. */
  lemma ConvertedCategoriesAreSearchable(original: Json)
    requires original.JObj? && Truthy(Prop(original, "categories"))
    ensures IsArray(Prop(Convert(original), "categories"))
  {
  }

  lemma MissingCategoriesThrow(original: Json, items: seq<Json>, isoDate: string, str: Json -> string)
    requires original.JObj? && !Truthy(Prop(original, "categories")) && |items| > 0
    ensures CuratedSpec(original, Prop(Convert(original), "categories"), items, isoDate, str).CuratedThrows?
  {
  }
}

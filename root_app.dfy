/** app.js: the page variant whose date navigation stays inside the archive.
    Here "today" is just another archived date: there is no live feed to go
    back to. "today" (getCurrentDate) is a parameter of every handler. */
module RootApp {
  import opened Wrappers
  import opened DateService

  /** The index both navigation handlers start from (app.js:682-688,
      706-712): the current date's index, else today's, else -1. */
  function ResolvedIndex(dates: seq<DateEntry>, current: string, today: string): (i: int)
    ensures -1 <= i < |dates|
    ensures i == -1 <==> !Listed(dates, current) && !Listed(dates, today)
    ensures Listed(dates, current) ==> i == IndexOfDate(dates, current)
    ensures !Listed(dates, current) ==> i == IndexOfDate(dates, today)
  {
    var found := IndexOfDate(dates, current);
    if found == -1 then IndexOfDate(dates, today) else found
  }

  /** navigateToPreviousDate (app.js:681-700): the archived date after the
      resolved index, if there is one. With neither date listed the index is
      -1 and the newest date is chosen. */
  function PreviousTarget(dates: seq<DateEntry>, current: string, today: string): (t: Option<string>)
    ensures t.Some? ==> Listed(dates, t.value)
    ensures var i := ResolvedIndex(dates, current, today);
      t == if i < |dates| - 1 then Some(dates[i + 1].date) else None
  {
    var i := ResolvedIndex(dates, current, today);
    if i < |dates| - 1 then Some(dates[i + 1].date) else None
  }

  /** navigateToNextDate (app.js:705-724): the archived date before the
      resolved index, if there is one; index 0 and -1 do nothing. */
  function NextTarget(dates: seq<DateEntry>, current: string, today: string): (t: Option<string>)
    ensures t.Some? ==> Listed(dates, t.value)
    ensures var i := ResolvedIndex(dates, current, today);
      t == if i > 0 then Some(dates[i - 1].date) else None
  {
    var i := ResolvedIndex(dates, current, today);
    if i > 0 then Some(dates[i - 1].date) else None
  }

  datatype ButtonState = ButtonState(prevDisabled: bool, nextDisabled: bool)

  /** updateDateNavigationButtons (app.js:651-676): the resolved index, with
      -1 read as 0 on a non-empty archive; Previous is disabled from the last
      index on, Next up to index 0. */
  function Buttons(dates: seq<DateEntry>, current: string, today: string): (b: ButtonState)
    ensures var i := ResolvedIndex(dates, current, today);
      i >= 0 ==> b == ButtonState(i >= |dates| - 1, i <= 0)
    ensures ResolvedIndex(dates, current, today) == -1 ==> b == ButtonState(|dates| <= 1, true)
  {
    var found := ResolvedIndex(dates, current, today);
    var i := if found == -1 && |dates| > 0 then 0 else found;
    ButtonState(i >= |dates| - 1, i <= 0)
  }

  /** When the current or today's date is listed, each button is disabled
      exactly when its handler would do nothing. */
  lemma {:induction false} ButtonsAgreeWhenResolved(dates: seq<DateEntry>, current: string, today: string)
    requires ResolvedIndex(dates, current, today) >= 0
    ensures Buttons(dates, current, today).prevDisabled <==> PreviousTarget(dates, current, today).None?
    ensures Buttons(dates, current, today).nextDisabled <==> NextTarget(dates, current, today).None?
  {
    var i := ResolvedIndex(dates, current, today);
    assert Buttons(dates, current, today) == ButtonState(i >= |dates| - 1, i <= 0);
  }

  /** With neither date listed and a single archived date, the Previous
      button is disabled yet navigateToPreviousDate moves to that date. */
  lemma PreviousButtonDisagreesWhenUnresolved(dates: seq<DateEntry>, current: string, today: string)
    requires !Listed(dates, current) && !Listed(dates, today) && |dates| == 1
    ensures Buttons(dates, current, today).prevDisabled
    ensures PreviousTarget(dates, current, today) == Some(dates[0].date)
  {
  }

  /** updateDateDisplay (app.js:637-646): 'Today' exactly when the current
      date is today's. */
  function DateDisplay(current: string, today: string): (shown: string)
    requires current == today || IsDateString(current)
    ensures shown == "Today" <==> current == today
    ensures current != today ==> shown == FormatDateForDisplay(current)
  {
    if current == today then "Today"
    else
      var r := FormatDateForDisplay(current);
      assert r[2] == '/';
      r
  }

  /** The navigation state of app.js (app.js:39-41). */
  class ArchiveBrowser {
    var dates: seq<DateEntry>
    var currentDate: string

    constructor (today: string, listed: seq<DateEntry>)
      ensures dates == listed && currentDate == today
    {
      dates := listed;
      currentDate := today;
    }

    /** Goes to `target` when there is one: the current date becomes it and
        its archive file is loaded. */
    method GoTo(target: Option<string>) returns (load: Option<string>)
      modifies this`currentDate
      ensures target.None? ==> currentDate == old(currentDate) && load.None?
      ensures target.Some? ==> currentDate == target.value && load == Some(GetDateUrl(target.value))
    {
      load := None;
      if target.Some? {
        currentDate := target.value;
        load := Some(GetDateUrl(target.value));
      }
    }

    /** navigateToPreviousDate (app.js:681-700). */
    method NavigateToPreviousDate(today: string) returns (load: Option<string>)
      modifies this`currentDate
      ensures var t := PreviousTarget(dates, old(currentDate), today);
        currentDate == (if t.Some? then t.value else old(currentDate)) &&
        load == (if t.Some? then Some(GetDateUrl(t.value)) else None)
      ensures currentDate == old(currentDate) || Listed(dates, currentDate)
    {
      load := GoTo(PreviousTarget(dates, currentDate, today));
    }

    /** navigateToNextDate (app.js:705-724). */
    method NavigateToNextDate(today: string) returns (load: Option<string>)
      modifies this`currentDate
      ensures var t := NextTarget(dates, old(currentDate), today);
        currentDate == (if t.Some? then t.value else old(currentDate)) &&
        load == (if t.Some? then Some(GetDateUrl(t.value)) else None)
      ensures currentDate == old(currentDate) || Listed(dates, currentDate)
    {
      load := GoTo(NextTarget(dates, currentDate, today));
    }

    /** navigateToToday (app.js:729-746): moves only when today's date is in
        the archive; otherwise the current date stays and `refused` reports
        the error toast. */
    method NavigateToToday(today: string) returns (refused: bool, load: Option<string>)
      modifies this`currentDate
      ensures refused <==> !Listed(dates, today)
      ensures refused ==> currentDate == old(currentDate) && load.None?
      ensures !refused ==> currentDate == today && load == Some(GetDateUrl(today))
    {
      var todayIndex := IndexOfDate(dates, today);
      refused := todayIndex == -1;
      load := None;
      if !refused {
        currentDate := today;
        load := Some(GetDateUrl(today));
      }
    }

    /** showDateCalendar (app.js:751-763): refused on an empty archive;
        otherwise `pick` is the archived date chosen, if any, and becomes the
        current date. */
    method ShowDateCalendar(pick: Option<nat>) returns (isOpen: bool, load: Option<string>)
      requires pick.Some? ==> pick.value < |dates|
      modifies this`currentDate
      ensures isOpen <==> |dates| > 0
      ensures !isOpen || pick.None? ==> currentDate == old(currentDate) && load.None?
      ensures isOpen && pick.Some? ==>
        currentDate == dates[pick.value].date && load == Some(GetDateUrl(dates[pick.value].date))
    {
      if |dates| == 0 {
        return false, None;
      }
      isOpen := true;
      if pick.Some? {
        load := GoTo(Some(dates[pick.value].date));
      } else {
        load := None;
      }
    }
  }

  /** Unlike the live-feed variant, Next from the newest archived date does
      nothing, and its button says so. */
  lemma NextAtNewestStays(dates: seq<DateEntry>, current: string, today: string)
    requires |dates| > 0 && dates[0].date == current
    ensures NextTarget(dates, current, today).None?
    ensures Buttons(dates, current, today).nextDisabled
  {
    assert Listed(dates, current);
  }
}

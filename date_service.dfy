/** services/dateService.js: the archive of dated feed files. The listing of
    the repository directory arrives as a value (`None` when the request or
    the JSON parse failed); "today" belongs to the callers. */
module DateService {
  import opened Wrappers
  import opened JsText

  /** One entry of the directory listing: its `type` and `name`. */
  datatype ListingItem = ListingItem(kind: string, name: string)

  /** The records fetchAvailableDates returns. */
  datatype DateEntry = DateEntry(date: string, filename: string, url: string)

  const FactsBase := "https://elizaos.github.io/knowledge/the-council/facts/"

  /** `\d{4}-\d{2}-\d{2}`, the whole string. */
  predicate IsDateString(s: string) {
    && |s| == 10
    && AllDigits(s[..4]) && s[4] == '-' && AllDigits(s[5..7]) && s[7] == '-' && AllDigits(s[8..])
  }

  predicate EndsWith(s: string, suffix: string) {
    |suffix| <= |s| && s[|s| - |suffix|..] == suffix
  }

  /** `/^(\d{4}-\d{2}-\d{2})\.json$/`. */
  predicate IsDateFileName(name: string) {
    |name| == 15 && IsDateString(name[..10]) && name[10..] == ".json"
  }

  /** getDateUrl (services/dateService.js:81-83). */
  function GetDateUrl(date: string): (url: string)
    ensures |url| == |FactsBase| + |date| + 5
    ensures url[..|FactsBase|] == FactsBase && url[|FactsBase|..] == date + ".json"
  {
    FactsBase + date + ".json"
  }

  /** A date's URL determines the date. */
  lemma GetDateUrlInjective(a: string, b: string)
    requires GetDateUrl(a) == GetDateUrl(b)
    ensures a == b
  {
    assert a + ".json" == GetDateUrl(a)[|FactsBase|..];
    assert a == (a + ".json")[..|a|];
    assert b == (b + ".json")[..|b|];
  }

  /** What one listing entry contributes (services/dateService.js:21-32):
      a file whose name is a date followed by `.json`. */
  function EntryFor(item: ListingItem): (r: Option<DateEntry>)
    ensures r.Some? <==> item.kind == "file" && IsDateFileName(item.name)
    ensures r.Some? ==> r.value == DateEntry(item.name[..10], item.name, FactsBase + item.name)
  {
    if item.kind == "file" && EndsWith(item.name, ".json") && IsDateFileName(item.name) then
      Some(DateEntry(item.name[..10], item.name, FactsBase + item.name))
    else None
  }

  /** A produced record: a date string, the file it came from, and the URL
      getDateUrl gives for that date. */
  predicate WellFormed(e: DateEntry) {
    IsDateString(e.date) && e.filename == e.date + ".json" && e.url == GetDateUrl(e.date)
  }

  lemma EntryForWellFormed(item: ListingItem)
    requires EntryFor(item).Some?
    ensures WellFormed(EntryFor(item).value)
  {
    assert item.name == item.name[..10] + ".json";
  }

  /** The listing file of a date yields exactly that date and its URL. */
  lemma {:induction false} DateFileRoundTrip(date: string)
    requires IsDateString(date)
    ensures EntryFor(ListingItem("file", date + ".json")) == Some(DateEntry(date, date + ".json", GetDateUrl(date)))
  {
    var name := date + ".json";
    assert name[..10] == date && name[10..] == ".json";
    assert EndsWith(name, ".json");
    assert FactsBase + name == GetDateUrl(date);
  }

  /** The records produced for a listing, in listing order. */
  function Parsed(listing: seq<ListingItem>): (r: seq<DateEntry>)
    ensures forall e :: e in r ==> WellFormed(e)
    ensures forall e :: e in r <==> exists i :: 0 <= i < |listing| && EntryFor(listing[i]) == Some(e)
  {
    if |listing| == 0 then []
    else
      var last := listing[|listing| - 1];
      var rest := Parsed(listing[..|listing| - 1]);
      assert forall i :: 0 <= i < |listing| - 1 ==> listing[..|listing| - 1][i] == listing[i];
      if EntryFor(last).Some? then
        EntryForWellFormed(last);
        rest + [EntryFor(last).value]
      else rest
  }

  /** The numeric key the sort compares: what `new Date(date)` orders by for a
      calendar date. */
  function DateKey(date: string): nat {
    if IsDateString(date) then
      DigitsValue(date[..4]) * 10000 + DigitsValue(date[5..7]) * 100 + DigitsValue(date[8..])
    else 0
  }

  /** For date strings, the numeric key orders exactly as the strings do. */
  lemma {:induction false} DateKeyIsLexOrder(a: string, b: string)
    requires IsDateString(a) && IsDateString(b)
    ensures DateKey(a) < DateKey(b) <==> LexLess(a, b)
  {
    DateKeyOfDigits(a);
    DateKeyOfDigits(b);
    LexLessIsNumericLess(DateDigits(a), DateDigits(b));
    LexLessOfDigits(a, b);
  }

  /** The eight digits of a date string, without its dashes. */
  function DateDigits(date: string): string
    requires IsDateString(date)
  {
    date[..4] + date[5..7] + date[8..]
  }

  /** The key is the value of the date's eight digits. */
  lemma DateKeyOfDigits(a: string)
    requires IsDateString(a)
    ensures |DateDigits(a)| == 8 && AllDigits(DateDigits(a))
    ensures DigitsValue(DateDigits(a)) == DateKey(a)
  {
    DigitsValueConcat(a[..4], a[5..7]);
    DigitsValueConcat(a[..4] + a[5..7], a[8..]);
  }

  /** The dashes sit at the same places in both dates, so they never decide:
      both orders compare the year, then the month, then the day. */
  lemma LexLessOfDigits(a: string, b: string)
    requires IsDateString(a) && IsDateString(b)
    ensures LexLess(a, b) <==> LexLess(DateDigits(a), DateDigits(b))
  {
    LexLessOfDashed(a, b);
    LexLessOfUndashed(a, b);
  }

  /** String order on dates written with dashes, field by field. */
  lemma LexLessOfDashed(a: string, b: string)
    requires IsDateString(a) && IsDateString(b)
    ensures LexLess(a, b) <==>
      LexLess(a[..4], b[..4]) || (a[..4] == b[..4] &&
        (LexLess(a[5..7], b[5..7]) || (a[5..7] == b[5..7] && LexLess(a[8..], b[8..]))))
  {
    assert a == a[..4] + ("-" + (a[5..7] + ("-" + a[8..])));
    assert b == b[..4] + ("-" + (b[5..7] + ("-" + b[8..])));
    LexLessConcat(a[..4], "-" + (a[5..7] + ("-" + a[8..])), b[..4], "-" + (b[5..7] + ("-" + b[8..])));
    LexLessConcat("-", a[5..7] + ("-" + a[8..]), "-", b[5..7] + ("-" + b[8..]));
    LexLessConcat(a[5..7], "-" + a[8..], b[5..7], "-" + b[8..]);
    LexLessConcat("-", a[8..], "-", b[8..]);
    assert !LexLess("-", "-");
  }

  /** String order on the eight digits, field by field. */
  lemma LexLessOfUndashed(a: string, b: string)
    requires IsDateString(a) && IsDateString(b)
    ensures LexLess(DateDigits(a), DateDigits(b)) <==>
      LexLess(a[..4], b[..4]) || (a[..4] == b[..4] &&
        (LexLess(a[5..7], b[5..7]) || (a[5..7] == b[5..7] && LexLess(a[8..], b[8..]))))
  {
    assert DateDigits(a) == a[..4] + (a[5..7] + a[8..]);
    assert DateDigits(b) == b[..4] + (b[5..7] + b[8..]);
    LexLessConcat(a[..4], a[5..7] + a[8..], b[..4], b[5..7] + b[8..]);
    LexLessConcat(a[5..7], a[8..], b[5..7], b[8..]);
  }

  /** Newest first: no record has a later date than one before it. */
  predicate NewestFirst(dates: seq<DateEntry>) {
    forall i, j :: 0 <= i < j < |dates| ==> DateKey(dates[j].date) <= DateKey(dates[i].date)
  }

  /** Inserting into a newest-first list after every record at least as new. */
  function Insert(sorted: seq<DateEntry>, e: DateEntry): (r: seq<DateEntry>)
    ensures multiset(r) == multiset(sorted) + multiset{e}
    ensures forall x :: x in r <==> x == e || x in sorted
    ensures |r| == |sorted| + 1 && (r[0] == e || (|sorted| > 0 && r[0] == sorted[0]))
  {
    if |sorted| == 0 || DateKey(sorted[0].date) < DateKey(e.date) then [e] + sorted
    else
      assert sorted == [sorted[0]] + sorted[1..];
      [sorted[0]] + Insert(sorted[1..], e)
  }

  /** Insert keeps a list newest first. */
  lemma {:induction false} InsertKeepsNewestFirst(sorted: seq<DateEntry>, e: DateEntry)
    requires NewestFirst(sorted)
    ensures NewestFirst(Insert(sorted, e))
  {
    if |sorted| == 0 || DateKey(sorted[0].date) < DateKey(e.date) {
      ConsNewestFirst(e, sorted);
    } else {
      var h, tail := sorted[0], sorted[1..];
      var rest := Insert(tail, e);
      InsertKeepsNewestFirst(tail, e);
      forall j | 0 <= j < |rest| ensures DateKey(rest[j].date) <= DateKey(h.date) {
        assert rest[j] in rest;
        if rest[j] != e {
          var k :| 0 <= k < |tail| && tail[k] == rest[j];
          assert sorted[k + 1] == rest[j];
        }
      }
      ConsNewestFirst(h, rest);
    }
  }

  /** A record at least as new as every record of a newest-first list can
      go in front of it. */
  lemma ConsNewestFirst(h: DateEntry, rest: seq<DateEntry>)
    requires NewestFirst(rest)
    requires forall j :: 0 <= j < |rest| ==> DateKey(rest[j].date) <= DateKey(h.date)
    ensures NewestFirst([h] + rest)
  {
    var r := [h] + rest;
    forall i, j | 0 <= i < j < |r| ensures DateKey(r[j].date) <= DateKey(r[i].date) {
      assert r[j] == rest[j - 1];
      if i > 0 {
        assert r[i] == rest[i - 1];
      }
    }
  }

  /** fetchAvailableDates (services/dateService.js:9-43): the listing's date
      files, newest first; every failure gives the empty list. */
  method FetchAvailableDates(listing: Option<seq<ListingItem>>) returns (dates: seq<DateEntry>)
    ensures listing.None? ==> dates == []
    ensures listing.Some? ==> multiset(dates) == multiset(Parsed(listing.value))
    ensures forall i :: 0 <= i < |dates| ==> WellFormed(dates[i])
    ensures NewestFirst(dates)
  {
    if listing.None? {
      return [];
    }
    var found := CollectDates(listing.value);
    dates := SortNewestFirst(found);
    forall i | 0 <= i < |dates| ensures WellFormed(dates[i]) {
      assert dates[i] in found;
    }
  }

  /** The forEach loop (services/dateService.js:21-33): one record per date
      file, in listing order. */
  method CollectDates(data: seq<ListingItem>) returns (found: seq<DateEntry>)
    ensures found == Parsed(data)
  {
    found := [];
    var i := 0;
    while i < |data|
      invariant 0 <= i <= |data|
      invariant found == Parsed(data[..i])
    {
      var entry := EntryFor(data[i]);
      if entry.Some? {
        EntryForWellFormed(data[i]);
        found := found + [entry.value];
      }
      assert data[..i + 1][..i] == data[..i];
      i := i + 1;
    }
    assert data[..i] == data;
  }

  /** The sort (services/dateService.js:36), as an insertion sort: the same
      records, newest first. */
  method SortNewestFirst(found: seq<DateEntry>) returns (dates: seq<DateEntry>)
    ensures multiset(dates) == multiset(found)
    ensures forall x :: x in dates <==> x in found
    ensures NewestFirst(dates)
  {
    dates := [];
    var k := 0;
    while k < |found|
      invariant 0 <= k <= |found|
      invariant multiset(dates) == multiset(found[..k])
      invariant NewestFirst(dates)
    {
      InsertKeepsNewestFirst(dates, found[k]);
      dates := Insert(dates, found[k]);
      assert found[..k + 1] == found[..k] + [found[k]];
      k := k + 1;
    }
    assert found[..k] == found;
    forall x ensures x in dates <==> x in found {
      assert x in dates <==> x in multiset(dates);
    }
  }

  /** Newest first is descending string order on the dates. */
  lemma {:induction false} NewestFirstIsDescendingOrder(dates: seq<DateEntry>, i: int, j: int)
    requires forall k :: 0 <= k < |dates| ==> IsDateString(dates[k].date)
    requires NewestFirst(dates) && 0 <= i < j < |dates|
    ensures !LexLess(dates[i].date, dates[j].date)
  {
    DateKeyIsLexOrder(dates[i].date, dates[j].date);
  }

  /** The two-digit, zero-padded text padStart(2, '0') gives a number below
      one hundred. */
  function PadStart(s: string, width: nat, fill: char): (r: string)
    ensures |r| == if |s| >= width then |s| else width
  {
    if |s| >= width then s else seq(width - |s|, _ => fill) + s
  }

  /** `String(n).slice(-2)`. */
  function LastTwo(s: string): string {
    if |s| >= 2 then s[|s| - 2..] else s
  }

  /** formatDateForDisplay (services/dateService.js:66-74) for its documented
      input `YYYY-MM-DD`: the month and day exactly as written, and the
      year's last two digits, or its only digit when the year is below 10
      (`String(5).slice(-2)` is "5"). */
  function FormatDateForDisplay(dateString: string): (r: string)
    requires IsDateString(dateString)
    ensures r == dateString[5..7] + "/" + dateString[8..] + "/" +
                 (if DigitsValue(dateString[..4]) >= 10 then dateString[2..4] else dateString[3..4])
  {
    var y := DigitsValue(dateString[..4]);
    var m := DigitsValue(dateString[5..7]);
    var d := DigitsValue(dateString[8..]);
    TwoDigitsRoundTrip(dateString[5..7]);
    TwoDigitsRoundTrip(dateString[8..]);
    YearSuffix(dateString[..4]);
    PadStart(NatToString(m), 2, '0') + "/" + PadStart(NatToString(d), 2, '0') + "/" + LastTwo(NatToString(y))
  }

  /** Number then padStart(2, '0') gives back a two-digit text. */
  lemma {:induction false} TwoDigitsRoundTrip(t: string)
    requires |t| == 2 && AllDigits(t)
    ensures PadStart(NatToString(DigitsValue(t)), 2, '0') == t
  {
    var hi, lo := DigitValue(t[0]), DigitValue(t[1]);
    assert t[..1][..0] == [] && t[..1][0] == t[0];
    assert DigitsValue(t[..1]) == hi;
    assert DigitsValue(t) == hi * 10 + lo;
    var n := hi * 10 + lo;
    if hi == 0 {
      assert NatToString(n) == [DigitChar(lo)];
      assert PadStart(NatToString(n), 2, '0') == ['0', DigitChar(lo)];
    } else {
      assert n / 10 == hi && n % 10 == lo;
      assert NatToString(n) == NatToString(hi) + [DigitChar(lo)];
    }
  }

  /** The last two characters of a year's decimal text are the last two
      digits written, or the only one. */
  lemma YearSuffix(t: string)
    requires |t| == 4 && AllDigits(t)
    ensures LastTwo(NatToString(DigitsValue(t))) == if DigitsValue(t) >= 10 then t[2..4] else t[3..4]
  {
    FourDigitsValue(t);
    var a, b, c, d := DigitValue(t[0]), DigitValue(t[1]), DigitValue(t[2]), DigitValue(t[3]);
    var n, hi := DigitsValue(t), (a * 10 + b) * 10 + c;
    SplitLastDigit(n, hi, d);
    SplitLastDigit(hi, a * 10 + b, c);
    LastTwoOfString(n);
    if n >= 10 {
      assert LastTwo(NatToString(n)) == [t[2], t[3]];
      PairSlice(t, 2);
    } else {
      assert LastTwo(NatToString(n)) == [t[3]];
      assert t[3..4] == [t[3]];
    }
  }

  /** The last two characters of String(n): its last two digits, or its only one. */
  lemma LastTwoOfString(n: nat)
    ensures LastTwo(NatToString(n)) == if n >= 10 then [DigitChar((n / 10) % 10), DigitChar(n % 10)] else [DigitChar(n)]
  {
    if n >= 10 {
      var r := NatToString(n / 10);
      assert NatToString(n) == r + [DigitChar(n % 10)];
      NatToStringLast(n / 10);
      LastTwoAppend(r, DigitChar(n % 10));
    }
  }

  lemma PairSlice(t: string, i: nat)
    requires i + 2 <= |t|
    ensures t[i..i + 2] == [t[i], t[i + 1]]
  {
  }

  /** String(d) of a single digit. */
  lemma SingleDigitString(d: nat)
    requires d < 10
    ensures NatToString(d) == [DigitChar(d)]
  {
  }

  lemma LastTwoAppend(r: string, x: char)
    requires |r| >= 1
    ensures LastTwo(r + [x]) == [r[|r| - 1], x]
  {
    var s := r + [x];
    assert s[|s| - 2..] == [r[|r| - 1], x];
  }

  /** n / 10 and n % 10 of a number written as q * 10 + d. */
  lemma SplitLastDigit(n: nat, q: nat, d: nat)
    requires d < 10 && n == q * 10 + d
    ensures n / 10 == q && n % 10 == d
  {
  }

  /** navigateToDate (services/dateService.js:90-93): the URLs the loader is
      called with. */
  function NavigateToDate(date: string): (loaded: seq<string>)
    ensures |loaded| == 1
    ensures forall e :: WellFormed(e) && e.date == date ==> loaded[0] == e.url
  {
    [GetDateUrl(date)]
  }

  /** `dates.findIndex(d => d.date === date)`. */
  function IndexOfDate(dates: seq<DateEntry>, date: string): (i: int)
    ensures -1 <= i < |dates|
    ensures i == -1 <==> forall m :: 0 <= m < |dates| ==> dates[m].date != date
    ensures i >= 0 ==> dates[i].date == date && forall m :: 0 <= m < i ==> dates[m].date != date
  {
    if |dates| == 0 then -1
    else if dates[0].date == date then 0
    else
      var i := IndexOfDate(dates[1..], date);
      assert forall m :: 1 <= m < |dates| ==> dates[m] == dates[1..][m - 1];
      if i == -1 then -1 else i + 1
  }

  /** The date is one of the archive's. */
  predicate Listed(dates: seq<DateEntry>, date: string) {
    exists m :: 0 <= m < |dates| && dates[m].date == date
  }
}

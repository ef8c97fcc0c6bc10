/** live/livenewsviewer.js: the live viewer, which lays the feed out as a
    grid of tiles. Its pure helpers (HTML escaping, headline choice, the
    counts of the stats card) and its two pieces of state (the tiles and the
    current slide index) are modelled; its convertJsonFormat is a verbatim
    copy of utils/dataUtils.js:10-60 and is DataUtils.Convert. Nothing in the
    file calls nextSlide, revisedShowSlide or createGitHubStatsCard: they are
    modelled as written, but never run. */
module LiveViewer {
  import opened Wrappers
  import opened Json
  import opened JsText
  import DataUtils

  // ---------------------------------------------------------------------------
  // escapeHtml (live/livenewsviewer.js:378-385)

  /** The replacement of one character by the escaper. */
  function EscapeChar(c: char): string {
    if c == '&' then "&amp;"
    else if c == '<' then "&lt;"
    else if c == '>' then "&gt;"
    else if c == '"' then "&quot;"
    else if c == '\'' then "&#39;"
    else [c]
  }

  /** Every character replaced by EscapeChar, left to right. */
  function EscapeChars(s: string): string {
    if |s| == 0 then "" else EscapeChar(s[0]) + EscapeChars(s[1..])
  }

  /** The five global replaces of escapeHtml, in the order written. */
  function ReplaceChain(s: string): string {
    var s1 := ReplaceAll(s, "&", "&amp;");
    var s2 := ReplaceAll(s1, "<", "&lt;");
    var s3 := ReplaceAll(s2, ">", "&gt;");
    var s4 := ReplaceAll(s3, "\"", "&quot;");
    ReplaceAll(s4, "'", "&#39;")
  }

  /** escapeHtml: `String(str || '')` (String() is a parameter) run through
      the replace chain, which is the same as escaping character by
      character; a falsy input gives ''. */
  function EscapeHtml(v: Option<Json>, str: Json -> string): (r: string)
    ensures !Truthy(v) ==> r == ""
    ensures Truthy(v) ==> r == EscapeChars(str(v.value))
    ensures SafeMarkup(r)
  {
    var s := if Truthy(v) then str(v.value) else "";
    ReplaceChainIsEscapeChars(s);
    EscapedIsSafe(s);
    ReplaceChain(s)
  }

  /** A replace of a one-character pattern distributes over concatenation. */
  lemma {:induction false} ReplaceOneCharConcat(a: string, b: string, c: char, rep: string)
    ensures ReplaceAll(a + b, [c], rep) == ReplaceAll(a, [c], rep) + ReplaceAll(b, [c], rep)
  {
    if |a| > 0 {
      ReplaceOneCharConcat(a[1..], b, c, rep);
      assert (a + b)[1..] == a[1..] + b;
      assert StartsWith(a + b, [c]) <==> StartsWith(a, [c]);
    } else {
      assert a + b == b;
    }
  }

  /** A replace leaves a string without the pattern character unchanged. */
  lemma {:induction false} ReplaceAbsentChar(s: string, c: char, rep: string)
    requires forall i :: 0 <= i < |s| ==> s[i] != c
    ensures ReplaceAll(s, [c], rep) == s
  {
    if |s| > 0 {
      assert s[..1] == [s[0]];
      assert !StartsWith(s, [c]);
      ReplaceAbsentChar(s[1..], c, rep);
      assert [s[0]] + s[1..] == s;
    }
  }

  lemma ReplaceChainConcat(a: string, b: string)
    ensures ReplaceChain(a + b) == ReplaceChain(a) + ReplaceChain(b)
  {
    ReplaceOneCharConcat(a, b, '&', "&amp;");
    var a1, b1 := ReplaceAll(a, "&", "&amp;"), ReplaceAll(b, "&", "&amp;");
    ReplaceOneCharConcat(a1, b1, '<', "&lt;");
    var a2, b2 := ReplaceAll(a1, "<", "&lt;"), ReplaceAll(b1, "<", "&lt;");
    ReplaceOneCharConcat(a2, b2, '>', "&gt;");
    var a3, b3 := ReplaceAll(a2, ">", "&gt;"), ReplaceAll(b2, ">", "&gt;");
    ReplaceOneCharConcat(a3, b3, '"', "&quot;");
    var a4, b4 := ReplaceAll(a3, "\"", "&quot;"), ReplaceAll(b3, "\"", "&quot;");
    ReplaceOneCharConcat(a4, b4, '\'', "&#39;");
  }

  /** The chain on a single character: the first replace that matches it
      produces an entity, whose characters no later replace matches. */
  lemma ReplaceChainOneChar(c: char)
    ensures ReplaceChain([c]) == EscapeChar(c)
  {
    ReplaceSingle(c, '&', "&amp;");
    if c == '&' {
      EntityUntouched("&amp;");
    } else {
      ReplaceSingle(c, '<', "&lt;");
      if c == '<' {
        EntityUntouched("&lt;");
      } else {
        ReplaceSingle(c, '>', "&gt;");
        if c == '>' {
          EntityUntouched("&gt;");
        } else {
          ReplaceSingle(c, '"', "&quot;");
          if c == '"' {
            EntityUntouched("&quot;");
          } else {
            ReplaceSingle(c, '\'', "&#39;");
          }
        }
      }
    }
  }

  /** A replace of one character over a one-character string. */
  lemma ReplaceSingle(c: char, p: char, rep: string)
    ensures ReplaceAll([c], [p], rep) == if c == p then rep else [c]
  {
    var s := [c];
    assert s[..1] == s && s[1..] == [];
  }

  /** The later replaces of the chain leave an entity as it is. */
  lemma EntityUntouched(e: string)
    requires forall i :: 0 <= i < |e| ==> e[i] != '<' && e[i] != '>' && e[i] != '"' && e[i] != '\''
    ensures ReplaceAll(e, "<", "&lt;") == e
    ensures ReplaceAll(e, ">", "&gt;") == e
    ensures ReplaceAll(e, "\"", "&quot;") == e
    ensures ReplaceAll(e, "'", "&#39;") == e
  {
    ReplaceAbsentChar(e, '<', "&lt;");
    ReplaceAbsentChar(e, '>', "&gt;");
    ReplaceAbsentChar(e, '"', "&quot;");
    ReplaceAbsentChar(e, '\'', "&#39;");
  }

  /** The replace chain is the per-character escape. */
  lemma {:induction false} ReplaceChainIsEscapeChars(s: string)
    ensures ReplaceChain(s) == EscapeChars(s)
  {
    if |s| == 0 {
      assert ReplaceChain(s) == "";
    } else {
      assert s == [s[0]] + s[1..];
      ReplaceChainConcat([s[0]], s[1..]);
      ReplaceChainOneChar(s[0]);
      ReplaceChainIsEscapeChars(s[1..]);
    }
  }

  predicate IsSpecial(c: char) {
    c == '&' || c == '<' || c == '>' || c == '"' || c == '\''
  }

  /** One of the five entities starts at index i. */
  predicate EntityAt(r: string, i: int) {
    OccursAt(r, "&amp;", i) || OccursAt(r, "&lt;", i) || OccursAt(r, "&gt;", i)
    || OccursAt(r, "&quot;", i) || OccursAt(r, "&#39;", i)
  }

  /** The characters of the first string keep their entities behind a
      prefix. */
  lemma EntityAtShift(a: string, b: string, j: int)
    requires EntityAt(b, j)
    ensures EntityAt(a + b, |a| + j)
  {
    var r := a + b;
    forall t: string | OccursAt(b, t, j) ensures OccursAt(r, t, |a| + j) {
      assert r[|a| + j..|a| + j + |t|] == b[j..j + |t|];
    }
  }

  /** No `<`, `>`, `"` or `'`, and every `&` begins an entity. */
  predicate SafeMarkup(r: string) {
    && (forall i :: 0 <= i < |r| ==> r[i] != '<' && r[i] != '>' && r[i] != '"' && r[i] != '\'')
    && (forall i :: 0 <= i < |r| && r[i] == '&' ==> EntityAt(r, i))
  }

  lemma EscapeCharIsSafe(c: char)
    ensures SafeMarkup(EscapeChar(c))
  {
    var e := EscapeChar(c);
    if IsSpecial(c) {
      EntityIsSafe(e);
    } else {
      assert e == [c];
    }
  }

  /** Each of the five entities is safe markup. */
  lemma EntityIsSafe(e: string)
    requires e == "&amp;" || e == "&lt;" || e == "&gt;" || e == "&quot;" || e == "&#39;"
    ensures SafeMarkup(e)
  {
    assert e[0..|e|] == e;
    assert EntityAt(e, 0);
  }

  /** Safe markup followed by safe markup is safe markup. */
  lemma SafeConcat(a: string, b: string)
    requires SafeMarkup(a) && SafeMarkup(b)
    ensures SafeMarkup(a + b)
  {
    var r := a + b;
    forall i | 0 <= i < |r| && r[i] == '&' ensures EntityAt(r, i) {
      if i < |a| {
        assert a[i] == '&';
        EntityAtExtend(a, b, i);
      } else {
        assert b[i - |a|] == '&';
        EntityAtShift(a, b, i - |a|);
      }
    }
    forall i | 0 <= i < |r| ensures r[i] != '<' && r[i] != '>' && r[i] != '"' && r[i] != '\'' {
      if i < |a| {
        assert r[i] == a[i];
      } else {
        assert r[i] == b[i - |a|];
      }
    }
  }

  /** An entity of the first string stays one when text follows. */
  lemma EntityAtExtend(a: string, b: string, i: int)
    requires EntityAt(a, i)
    ensures EntityAt(a + b, i)
  {
    var r := a + b;
    forall t: string | OccursAt(a, t, i) ensures OccursAt(r, t, i) {
      assert r[i..i + |t|] == a[i..i + |t|];
    }
  }

  /** The escaped text holds no `<`, `>`, `"` or `'`, and every `&` in it
      begins one of the five entities. */
  lemma {:induction false} EscapedIsSafe(s: string)
    ensures SafeMarkup(EscapeChars(s))
  {
    if |s| > 0 {
      EscapedIsSafe(s[1..]);
      EscapeCharIsSafe(s[0]);
      SafeConcat(EscapeChar(s[0]), EscapeChars(s[1..]));
    }
  }

  /** Text without the five special characters is left as it is. */
  lemma {:induction false} EscapeKeepsPlainText(s: string)
    requires forall i :: 0 <= i < |s| ==> !IsSpecial(s[i])
    ensures EscapeChars(s) == s
  {
    if |s| > 0 {
      EscapeKeepsPlainText(s[1..]);
      assert [s[0]] + s[1..] == s;
    }
  }

  /** A one-pass decoder of the five entities. */
  function Unescape(r: string): string
    decreases |r|
  {
    if |r| == 0 then ""
    else if StartsWith(r, "&amp;") then "&" + Unescape(r[5..])
    else if StartsWith(r, "&lt;") then "<" + Unescape(r[4..])
    else if StartsWith(r, "&gt;") then ">" + Unescape(r[4..])
    else if StartsWith(r, "&quot;") then "\"" + Unescape(r[6..])
    else if StartsWith(r, "&#39;") then "'" + Unescape(r[5..])
    else [r[0]] + Unescape(r[1..])
  }

  lemma UnescapeStep(c: char, rest: string)
    ensures Unescape(EscapeChar(c) + rest) == [c] + Unescape(rest)
  {
    var e := EscapeChar(c);
    var r := e + rest;
    assert r[..|e|] == e;
    assert r[|e|..] == rest;
    if c == '&' {
      assert StartsWith(r, "&amp;");
    } else if c == '<' {
      assert !StartsWith(r, "&amp;") by { assert r[1] == 'l'; }
      assert StartsWith(r, "&lt;");
    } else if c == '>' {
      assert !StartsWith(r, "&amp;") && !StartsWith(r, "&lt;") by { assert r[1] == 'g'; }
      assert StartsWith(r, "&gt;");
    } else if c == '"' {
      assert !StartsWith(r, "&amp;") && !StartsWith(r, "&lt;") && !StartsWith(r, "&gt;") by { assert r[1] == 'q'; }
      assert StartsWith(r, "&quot;");
    } else if c == '\'' {
      assert !StartsWith(r, "&amp;") && !StartsWith(r, "&lt;") && !StartsWith(r, "&gt;") && !StartsWith(r, "&quot;") by { assert r[1] == '#'; }
      assert StartsWith(r, "&#39;");
    } else {
      assert r[0] == c && r[1..] == rest;
      assert !StartsWith(r, "&amp;") && !StartsWith(r, "&lt;") && !StartsWith(r, "&gt;") && !StartsWith(r, "&quot;") && !StartsWith(r, "&#39;") by { assert r[0] != '&'; }
    }
  }

  /** Decoding recovers the input, so escapeHtml is injective. */
  lemma {:induction false} UnescapeEscape(s: string)
    ensures Unescape(EscapeChars(s)) == s
  {
    if |s| > 0 {
      UnescapeStep(s[0], EscapeChars(s[1..]));
      UnescapeEscape(s[1..]);
      assert [s[0]] + s[1..] == s;
    }
  }

  lemma EscapeInjective(a: string, b: string)
    requires EscapeChars(a) == EscapeChars(b)
    ensures a == b
  {
    UnescapeEscape(a);
    UnescapeEscape(b);
  }

  // ---------------------------------------------------------------------------
  // Headline and body of a tile (live/livenewsviewer.js:232-233)

  const HeadlineFields := ["title", "claim", "development"]
  const BodyFields := ["summary", "text", "insight", "observation", "feedback_summary"]

  /** `item.title || item.claim || item.development || categoryTitle || 'Update'`. */
  function Headline(item: Json, categoryTitle: Option<Json>): (h: Json)
    requires item != JNull
    ensures Truthy(Some(h))
    ensures forall i :: 0 <= i < |HeadlineFields| && Truthy(Prop(item, HeadlineFields[i]))
                        && (forall j :: 0 <= j < i ==> !Truthy(Prop(item, HeadlineFields[j]))) ==>
                        Some(h) == Prop(item, HeadlineFields[i])
    ensures (forall i :: 0 <= i < |HeadlineFields| ==> !Truthy(Prop(item, HeadlineFields[i]))) ==>
      h == if Truthy(categoryTitle) then categoryTitle.value else JStr("Update")
  {
    var f := DataUtils.FirstTruthyProp(item, HeadlineFields);
    if f.Some? then f.value
    else if Truthy(categoryTitle) then categoryTitle.value
    else JStr("Update")
  }

  /** `item.summary || item.text || item.insight || item.observation ||
      item.feedback_summary || ''`. */
  function Body(item: Json): (b: Json)
    requires item != JNull
    ensures forall i :: 0 <= i < |BodyFields| && Truthy(Prop(item, BodyFields[i]))
                        && (forall j :: 0 <= j < i ==> !Truthy(Prop(item, BodyFields[j]))) ==>
                        Some(b) == Prop(item, BodyFields[i])
    ensures (forall i :: 0 <= i < |BodyFields| ==> !Truthy(Prop(item, BodyFields[i]))) ==> b == JStr("")
  {
    var f := DataUtils.FirstTruthyProp(item, BodyFields);
    if f.Some? then f.value else JStr("")
  }

  // ---------------------------------------------------------------------------
  // The counts of the GitHub stats card (live/livenewsviewer.js:104-138)

  /** A piece of the card's regular expressions: `\d+` (its digits are the
      captured group), `\s+`, or literal text. In every pattern a `\d+` is
      followed by `\s+` or ends the pattern and a `\s+` is followed by a
      letter, `#` or a digit, so the greedy runs below are the only way
      each piece can match and no backtracking is needed. */
  datatype Piece = Digits | Spaces | Text(t: string)

  /** `/(\d+)\s+new\s+pull\s+requests/i` */
  const PrsOpenedPattern := [Digits, Spaces, Text("new"), Spaces, Text("pull"), Spaces, Text("requests")]
  /** `/with\s+(\d+)\s+of\s+them\s+merged/i` */
  const PrsMergedPattern := [Text("with"), Spaces, Digits, Spaces, Text("of"), Spaces, Text("them"), Spaces, Text("merged")]
  /** `/(\d+)\s+new\s+issues\s+were\s+created/i` */
  const IssuesOpenedPattern := [Digits, Spaces, Text("new"), Spaces, Text("issues"), Spaces, Text("were"), Spaces, Text("created")]
  /** `/had\s+(\d+)\s+active\s+contributors/i` */
  const ContributorsPattern := [Text("had"), Spaces, Digits, Spaces, Text("active"), Spaces, Text("contributors")]
  /** `/PR\s+#\d+/g` (case-sensitive) */
  const PrReferencePattern := [Text("PR"), Spaces, Text("#"), Digits]

  function ToAsciiLower(c: char): char {
    if 'A' <= c <= 'Z' then (c as int + 32) as char else c
  }

  /** Character equality of a regular expression; with the `i` flag and no
      `u` flag only ASCII letters match their other case. */
  predicate SameChar(a: char, b: char, ignoreCase: bool) {
    a == b || (ignoreCase && ToAsciiLower(a) == ToAsciiLower(b))
  }

  /** The length of the longest run of digits (or of white space) at i. */
  function RunLength(s: string, i: nat, digits: bool): (k: nat)
    requires i <= |s|
    ensures i + k <= |s|
    ensures forall j :: i <= j < i + k ==> (if digits then IsDigit(s[j]) else IsJsSpace(s[j]))
    ensures i + k < |s| ==> !(if digits then IsDigit(s[i + k]) else IsJsSpace(s[i + k]))
    decreases |s| - i
  {
    if i < |s| && (if digits then IsDigit(s[i]) else IsJsSpace(s[i])) then 1 + RunLength(s, i + 1, digits) else 0
  }

  predicate TextAt(s: string, i: nat, t: string, ignoreCase: bool) {
    i + |t| <= |s| && forall k :: 0 <= k < |t| ==> SameChar(s[i + k], t[k], ignoreCase)
  }

  /** A match: where it ends and the value of its captured digits. */
  datatype Match = Match(end: nat, group: nat)

  /** The pattern matched from index i on, if it does. */
  function MatchFrom(s: string, i: nat, pat: seq<Piece>, ignoreCase: bool, group: nat): (r: Option<Match>)
    requires i <= |s|
    ensures r.Some? ==> i <= r.value.end <= |s|
    ensures r.Some? && |pat| > 0 ==> i < r.value.end
    decreases |pat|
  {
    if |pat| == 0 then Some(Match(i, group))
    else match pat[0]
      case Digits =>
        var k := RunLength(s, i, true);
        if k == 0 then None
        else MatchFrom(s, i + k, pat[1..], ignoreCase, DigitsValue(s[i..i + k]))
      case Spaces =>
        var k := RunLength(s, i, false);
        if k == 0 then None else MatchFrom(s, i + k, pat[1..], ignoreCase, group)
      case Text(t) =>
        if |t| > 0 && TextAt(s, i, t, ignoreCase) then MatchFrom(s, i + |t|, pat[1..], ignoreCase, group) else None
  }

  /** A match of the whole pattern starting at i. */
  function MatchAt(s: string, i: nat, pat: seq<Piece>, ignoreCase: bool): (r: Option<Match>)
    requires i <= |s|
  {
    MatchFrom(s, i, pat, ignoreCase, 0)
  }

  /** `String.prototype.match` without the `g` flag: the leftmost match at or
      after `from`. */
  function FirstMatch(s: string, from: nat, pat: seq<Piece>, ignoreCase: bool): (r: Option<Match>)
    requires from <= |s|
    ensures r.None? <==> forall i :: from <= i <= |s| ==> MatchAt(s, i, pat, ignoreCase).None?
    ensures r.Some? ==> exists i :: from <= i <= |s| && MatchAt(s, i, pat, ignoreCase) == r
                          && forall j :: from <= j < i ==> MatchAt(s, j, pat, ignoreCase).None?
    decreases |s| - from
  {
    var m := MatchAt(s, from, pat, ignoreCase);
    if m.Some? then
      m
    else if from == |s| then None
    else FirstMatch(s, from + 1, pat, ignoreCase)
  }

  /** The length of the array `match` returns with the `g` flag (0 for
      its `null`): matches are taken left to right, each search resuming
      where the previous match ended. */
  function CountMatches(s: string, from: nat, pat: seq<Piece>): (n: nat)
    requires from <= |s| && |pat| > 0
    ensures n == 0 <==> forall i :: from <= i <= |s| ==> MatchAt(s, i, pat, false).None?
    ensures n <= |s| - from + 1
    decreases |s| - from
  {
    var m := MatchAt(s, from, pat, false);
    if m.Some? then
      var e := m.value.end;
      if e == |s| then 1 else 1 + CountMatches(s, e, pat)
    else if from == |s| then 0
    else CountMatches(s, from + 1, pat)
  }

  /** `m ? parseInt(m[1], 10) : 0` for the first match of a pattern. */
  function CountOf(text: string, pat: seq<Piece>): (n: nat)
    ensures (forall i :: 0 <= i <= |text| ==> MatchAt(text, i, pat, true).None?) ==> n == 0
    ensures forall m :: FirstMatch(text, 0, pat, true) == Some(m) ==> n == m.group
  {
    match FirstMatch(text, 0, pat, true)
    case None => 0
    case Some(m) => m.group
  }

  datatype Stats = Stats(prsOpened: nat, prsMerged: nat, issuesOpened: nat, activeContributors: nat, completedItems: nat)

  /** The text a stats source offers: a falsy value gives "", a string
      itself; any other value has no `.match` and throws (None). */
  function TextOrEmpty(v: Option<Json>): (r: Option<string>)
    ensures !Truthy(v) ==> r == Some("")
    ensures forall t :: v == Some(JStr(t)) ==> r == Some(t)
    ensures Truthy(v) && !v.value.JStr? ==> r.None?
  {
    if !Truthy(v) then Some("")
    else match v.value
      case JStr(t) => Some(t)
      case _ => None
  }

  /** `completedItemsData.content[0]?.text || ""` when content is an array;
      no completed category or no array content gives "". */
  function CompletedText(completed: Option<Json>): (r: Option<string>)
    ensures !(Truthy(completed) && IsArray(Prop(completed.value, "content"))) ==> r == Some("")
  {
    if Truthy(completed) && IsArray(Prop(completed.value, "content")) then
      var items := Prop(completed.value, "content").value.items;
      if |items| == 0 || items[0] == JNull then Some("") else TextOrEmpty(Prop(items[0], "text"))
    else Some("")
  }

  /** The counts of createGitHubStatsCard, or None when it throws. */
  function StatsOf(summaryItem: Json, completed: Option<Json>): (r: Option<Stats>)
    ensures summaryItem == JNull ==> r.None?
    ensures forall text, done :: summaryItem != JNull && TextOrEmpty(Prop(summaryItem, "text")) == Some(text) && CompletedText(completed) == Some(done) ==>
      r == Some(Stats(CountOf(text, PrsOpenedPattern), CountOf(text, PrsMergedPattern),
                      CountOf(text, IssuesOpenedPattern), CountOf(text, ContributorsPattern),
                      CountMatches(done, 0, PrReferencePattern)))
  {
    if summaryItem == JNull then None
    else
      var text := TextOrEmpty(Prop(summaryItem, "text"));
      if text.None? then None
      else
        var done := CompletedText(completed);
        if done.None? then None
        else Some(Stats(CountOf(text.value, PrsOpenedPattern), CountOf(text.value, PrsMergedPattern),
                        CountOf(text.value, IssuesOpenedPattern), CountOf(text.value, ContributorsPattern),
                        CountMatches(done.value, 0, PrReferencePattern)))
  }

  /** `Math.max(prsOpened, prsMerged, issuesOpened, 1)`, the height of the
      chart. */
  function ChartMax(st: Stats): (m: nat)
    ensures m >= 1 && m >= st.prsOpened && m >= st.prsMerged && m >= st.issuesOpened
    ensures m == 1 || m == st.prsOpened || m == st.prsMerged || m == st.issuesOpened
  {
    var a := if st.prsOpened > st.prsMerged then st.prsOpened else st.prsMerged;
    var b := if a > st.issuesOpened then a else st.issuesOpened;
    if b > 1 then b else 1
  }

  // ---------------------------------------------------------------------------
  // Tile selection of loadAndDisplayNews (live/livenewsviewer.js:567-604)

  /** A tile: the item and the title of its category. */
  datatype Tile = Tile(item: Json, categoryTitle: Option<Json>)

  predicate HasTopic(cat: Json, topic: string) {
    Prop(cat, "topic") == Some(JStr(topic))
  }

  /** The categories that get no tiles. */
  predicate IsStatsCategory(cat: Json) {
    HasTopic(cat, "github_summary") || HasTopic(cat, "completed_items")
  }

  /** `content.length > 0` for a number or boolean `length` (`true > 0`);
      a string, array or object `length` is taken as not positive. */
  predicate LengthPositive(v: Json) {
    match DataUtils.LengthProp(v)
    case Some(JNum(n)) => n > 0.0
    case Some(JBool(b)) => b
    case _ => false
  }

  /** The state of the first pass: the remembered summary item
      (`gitHubSummaryData`, None for null or undefined) and whether the pass
      has thrown. */
  datatype SummaryScan = SummaryScan(summary: Option<Json>, threw: bool)

  /** One category of the first pass: a non-empty github_summary category
      makes its first content item the summary item; when the category has a
      truthy title, reading that item's title throws on null or undefined
      (the title written onto the item is not modelled: no tile shows it). */
  function ScanStep(acc: Option<Json>, cat: Json): (r: SummaryScan)
  {
    if cat == JNull then SummaryScan(acc, true)
    else
      var content := Prop(cat, "content");
      if HasTopic(cat, "github_summary") && Truthy(content) && LengthPositive(content.value) then
        var first := DataUtils.Index0(content.value);
        var title := Prop(cat, "title");
        if Truthy(title) && (first.None? || first == Some(JNull)) then SummaryScan(acc, true)
        else SummaryScan(if first == Some(JNull) then None else first, false)
      else SummaryScan(acc, false)
  }

  /** The first pass over the categories; the last summary item wins. */
  function ScanSummary(cats: seq<Json>): (r: SummaryScan)
    ensures !r.threw ==> forall i :: 0 <= i < |cats| ==> cats[i] != JNull
    ensures r.summary.Some? ==> r.summary.value != JNull
  {
    if |cats| == 0 then SummaryScan(None, false)
    else
      var p := ScanSummary(cats[..|cats| - 1]);
      if p.threw then p
      else
        assert forall i :: 0 <= i < |cats| - 1 ==> cats[i] == cats[..|cats| - 1][i];
        ScanStep(p.summary, cats[|cats| - 1])
  }

  /** `item === gitHubSummaryData && gitHubSummaryData !== null`. */
  predicate IsSummaryItem(item: Json, summary: Option<Json>) {
    summary.Some? && StrictEq(Some(item), summary)
  }

  /** The tiles pushed for `items`, and whether creating one threw (a null
      item has no `.title`); on a throw the tiles pushed so far remain. */
  datatype Push = Push(tiles: seq<Tile>, threw: bool)

  function ItemTiles(items: seq<Json>, title: Option<Json>, summary: Option<Json>): (r: Push)
    ensures |r.tiles| <= |items|
    ensures forall t :: t in r.tiles ==> t.item in items && t.item != JNull && t.categoryTitle == title
    ensures !r.threw && (forall i :: 0 <= i < |items| ==> !IsSummaryItem(items[i], summary)) ==> |r.tiles| == |items|
    ensures !r.threw ==> forall i :: 0 <= i < |items| ==> items[i] != JNull || IsSummaryItem(items[i], summary)
  {
    if |items| == 0 then Push([], false)
    else
      var n := |items| - 1;
      var p := ItemTiles(items[..n], title, summary);
      assert forall i :: 0 <= i < n ==> items[..n][i] == items[i];
      assert forall x :: x in items[..n] ==> x in items;
      if p.threw then p
      else if IsSummaryItem(items[n], summary) then p
      else if items[n] == JNull then Push(p.tiles, true)
      else Push(p.tiles + [Tile(items[n], title)], false)
  }

  /** The tiles of one category: none for the stats categories and for a
      content that is not an array. */
  function CategoryTiles(cat: Json, summary: Option<Json>): (r: Push)
    ensures IsStatsCategory(cat) || !IsArray(Prop(cat, "content")) ==> r == Push([], false)
    ensures !IsStatsCategory(cat) && IsArray(Prop(cat, "content")) ==>
      r == ItemTiles(Prop(cat, "content").value.items, Prop(cat, "title"), summary)
  {
    var content := Prop(cat, "content");
    if IsStatsCategory(cat) || !(Truthy(content) && IsArray(content)) then Push([], false)
    else ItemTiles(content.value.items, Prop(cat, "title"), summary)
  }

  /** The second pass: category by category, stopping at a throw. */
  function AllTiles(cats: seq<Json>, summary: Option<Json>): (r: Push)
  {
    if |cats| == 0 then Push([], false)
    else
      var p := AllTiles(cats[..|cats| - 1], summary);
      if p.threw then p
      else
        var q := CategoryTiles(cats[|cats| - 1], summary);
        Push(p.tiles + q.tiles, q.threw)
  }

  /** The number of items the non-stats categories hold in array contents. */
  function TileCount(cats: seq<Json>): nat {
    if |cats| == 0 then 0
    else
      var cat := cats[|cats| - 1];
      TileCount(cats[..|cats| - 1])
      + (if !IsStatsCategory(cat) && IsArray(Prop(cat, "content")) then |Prop(cat, "content").value.items| else 0)
  }

  /** No item equals the summary item. */
  predicate NoSummaryItem(cats: seq<Json>, summary: Option<Json>) {
    forall c, i :: 0 <= c < |cats| && IsArray(Prop(cats[c], "content")) && 0 <= i < |Prop(cats[c], "content").value.items|
      ==> !IsSummaryItem(Prop(cats[c], "content").value.items[i], summary)
  }

  /** The tile shows an item of the array content of category c, which is
      not a stats category. */
  predicate TileOf(t: Tile, cats: seq<Json>, c: int) {
    && 0 <= c < |cats| && !IsStatsCategory(cats[c]) && IsArray(Prop(cats[c], "content"))
    && t.item in Prop(cats[c], "content").value.items && t.categoryTitle == Prop(cats[c], "title")
  }

  /** Every tile comes from an array content of a category that is not a
      stats category; without a throw and without a summary item among the
      items, there is exactly one tile per such item. */
  lemma AllTilesShape(cats: seq<Json>, summary: Option<Json>)
    ensures forall t :: t in AllTiles(cats, summary).tiles ==> t.item != JNull && exists c :: TileOf(t, cats, c)
    ensures !AllTiles(cats, summary).threw && NoSummaryItem(cats, summary) ==> |AllTiles(cats, summary).tiles| == TileCount(cats)
  {
    AllTilesOrigin(cats, summary);
    AllTilesCount(cats, summary);
  }

  lemma {:induction false} AllTilesOrigin(cats: seq<Json>, summary: Option<Json>)
    ensures forall t :: t in AllTiles(cats, summary).tiles ==> t.item != JNull && exists c :: TileOf(t, cats, c)
  {
    if |cats| > 0 {
      var n := |cats| - 1;
      var cat := cats[n];
      assert forall c :: 0 <= c < n ==> cats[..n][c] == cats[c];
      AllTilesOrigin(cats[..n], summary);
      var p := AllTiles(cats[..n], summary);
      forall t | t in p.tiles ensures exists c :: TileOf(t, cats, c) {
        var c :| TileOf(t, cats[..n], c);
        assert TileOf(t, cats, c);
      }
      if !p.threw {
        var q := CategoryTiles(cat, summary);
        forall t | t in q.tiles
          ensures t.item != JNull && exists c :: TileOf(t, cats, c)
        {
          assert !IsStatsCategory(cat) && IsArray(Prop(cat, "content"));
          assert TileOf(t, cats, n);
        }
      }
    }
  }

  lemma {:induction false} AllTilesCount(cats: seq<Json>, summary: Option<Json>)
    ensures !AllTiles(cats, summary).threw && NoSummaryItem(cats, summary) ==> |AllTiles(cats, summary).tiles| == TileCount(cats)
  {
    if |cats| > 0 && NoSummaryItem(cats, summary) {
      var n := |cats| - 1;
      var cat := cats[n];
      assert forall c :: 0 <= c < n ==> cats[..n][c] == cats[c];
      assert NoSummaryItem(cats[..n], summary);
      AllTilesCount(cats[..n], summary);
      if !IsStatsCategory(cat) && IsArray(Prop(cat, "content")) {
        assert forall i :: 0 <= i < |Prop(cat, "content").value.items| ==> !IsSummaryItem(Prop(cat, "content").value.items[i], summary);
      }
    }
  }

  /** What loadAndDisplayNews computes from the converted feed: with
      categories as an array, both passes; the tiles are empty when the
      first pass throws. */
  function LoadedTiles(converted: Json): (r: seq<Tile>)
  {
    var cats := Prop(converted, "categories");
    if !(Truthy(Some(converted)) && Truthy(cats) && IsArray(cats)) then []
    else
      var scan := ScanSummary(cats.value.items);
      if scan.threw then [] else AllTiles(cats.value.items, scan.summary).tiles
  }

  // ---------------------------------------------------------------------------
  // The slide index (live/livenewsviewer.js:8-10, 440-536); nothing in the
  // file calls nextSlide or revisedShowSlide

  /** `(current + 1) % count` for an index in [-1, count): JavaScript's `%`
      agrees with Dafny's here because the left operand is not negative. */
  function NextIndex(current: int, count: nat): (next: nat)
    requires count > 0 && -1 <= current < count
    ensures next < count
    ensures current == -1 ==> next == 0
    ensures current == count - 1 ==> next == 0
    ensures 0 <= current < count - 1 ==> next == current + 1
  {
    (current + 1) % count
  }

  class SlideShow {
    var cards: seq<Tile>
    var currentSlideIndex: int
    var isTransitioning: bool

    /** The current slide is -1 (none yet) or one of the cards. */
    predicate Valid()
      reads this
    {
      -1 <= currentSlideIndex < |cards|
    }

    constructor ()
      ensures Valid() && cards == [] && currentSlideIndex == -1 && !isTransitioning
    {
      cards := [];
      currentSlideIndex := -1;
      isTransitioning := false;
    }

    /** revisedShowSlide (live/livenewsviewer.js:440-525), with its timed
        fade completed at once: nothing while a transition runs, on an empty
        deck or for the slide already shown; otherwise `index` becomes the
        current slide. */
    method ShowSlide(index: int)
      requires Valid() && 0 <= index < |cards|
      modifies this`currentSlideIndex
      ensures Valid()
      ensures currentSlideIndex == if index == old(currentSlideIndex) || isTransitioning then old(currentSlideIndex) else index
    {
      if index == currentSlideIndex || |cards| == 0 || isTransitioning {
        return;
      }
      currentSlideIndex := index;
    }

    /** nextSlide (live/livenewsviewer.js:527-536). */
    method NextSlide()
      requires Valid()
      modifies this`currentSlideIndex
      ensures Valid()
      ensures |cards| == 0 ==> currentSlideIndex == old(currentSlideIndex)
      ensures |cards| > 0 && !isTransitioning ==> currentSlideIndex == NextIndex(old(currentSlideIndex), |cards|)
      ensures |cards| > 0 && isTransitioning ==> currentSlideIndex == old(currentSlideIndex)
    {
      if |cards| == 0 {
        return;
      }
      var next := NextIndex(currentSlideIndex, |cards|);
      ShowSlide(next);
    }

    /** loadAndDisplayNews (live/livenewsviewer.js:538-604). `jsonData` is
        the parsed feed, or None when reading or fetching it failed, which
        happens before any state is reset. */
    method LoadAndDisplayNews(jsonData: Option<Json>)
      modifies this`cards, this`currentSlideIndex
      ensures jsonData.None? ==> cards == old(cards) && currentSlideIndex == old(currentSlideIndex)
      ensures jsonData.Some? ==> cards == LoadedTiles(DataUtils.Convert(jsonData.value)) && currentSlideIndex == -1
      ensures old(Valid()) ==> Valid()
    {
      if jsonData.None? {
        return;
      }
      var converted := DataUtils.ConvertJsonFormat(jsonData.value);
      cards := [];
      currentSlideIndex := -1;
      var cats := Prop(converted, "categories");
      if !(Truthy(Some(converted)) && Truthy(cats) && IsArray(cats)) {
        return;
      }
      var scan := ScanSummary(cats.value.items);
      if scan.threw {
        return;
      }
      cards := CollectTiles(cats.value.items, scan.summary);
    }
  }

  /** The second pass as the loop it is: category by category, stopping at
      the first throw with the tiles pushed so far. */
  method CollectTiles(cats: seq<Json>, summary: Option<Json>) returns (tiles: seq<Tile>)
    ensures tiles == AllTiles(cats, summary).tiles
  {
    tiles := [];
    var k := 0;
    while k < |cats|
      invariant 0 <= k <= |cats|
      invariant AllTiles(cats[..k], summary) == Push(tiles, false)
    {
      assert cats[..k + 1][..k] == cats[..k];
      var q := CategoryTiles(cats[k], summary);
      tiles := tiles + q.tiles;
      if q.threw {
        AllTilesStops(cats, k + 1, summary);
        return;
      }
      k := k + 1;
    }
    assert cats[..k] == cats;
  }

  /** Once a prefix has thrown, the rest adds nothing. */
  lemma {:induction false} AllTilesStops(cats: seq<Json>, k: nat, summary: Option<Json>)
    requires k <= |cats| && AllTiles(cats[..k], summary).threw
    ensures AllTiles(cats, summary) == AllTiles(cats[..k], summary)
    decreases |cats| - k
  {
    if k < |cats| {
      assert cats[..k + 1][..k] == cats[..k];
      AllTilesStops(cats, k + 1, summary);
    } else {
      assert cats[..k] == cats;
    }
  }
}

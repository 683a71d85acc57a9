/** The browser-side helpers of wwwroot/app.js: HTML escaping, the client's
    own timeline heuristic, the profile status bands and the CSS class chosen
    for a classification. */
module ClientApp {
  import opened Wrappers
  import opened Json
  import opened Text
  import opened Years
  import opened Heuristic

  // ---------------------------------------------------------------- escapeHtml

  /** The replace chain of escapeHtml, in its order: '&' first, the line
      break last. */
  const EscapeSteps: seq<(char, string)> := [
    ('&', "&amp;"), ('<', "&lt;"), ('>', "&gt;"), ('"', "&quot;"), ('\'', "&#039;"), ('\n', "<br/>")]

  /** s.replace(/c1/g, r1).replace(/c2/g, r2)... for the given steps. */
  function ReplaceSteps(s: string, steps: seq<(char, string)>): string
    decreases |steps|
  {
    if steps == [] then s else ReplaceSteps(ReplaceAll(s, steps[0].0, steps[0].1), steps[1..])
  }

  /** escapeHtml: '' for a falsy (empty) string, the replace chain otherwise;
      the result is the text escaped one character at a time. */
  function EscapeHtml(s: string): (r: string)
    ensures s == "" <==> r == ""
    ensures r == EscapeEach(s)
  {
    if s == "" then "" else
      EscapeEachIsChain(s);
      ReplaceSteps(s, EscapeSteps)
  }

  /** Reference definition: each character on its own, with the entity or
      line break that stands for it. */
  function EscapeChar(c: char): (r: string)
    ensures |r| > 0
  {
    if c == '&' then "&amp;"
    else if c == '<' then "&lt;"
    else if c == '>' then "&gt;"
    else if c == '"' then "&quot;"
    else if c == '\'' then "&#039;"
    else if c == '\n' then "<br/>"
    else [c]
  }

  function EscapeEach(s: string): (r: string)
    ensures s == "" <==> r == ""
  {
    if s == [] then [] else EscapeChar(s[0]) + EscapeEach(s[1..])
  }

  lemma {:induction false} ReplaceAllAppend(a: string, b: string, c: char, rep: string)
    ensures ReplaceAll(a + b, c, rep) == ReplaceAll(a, c, rep) + ReplaceAll(b, c, rep)
  {
    if a != [] {
      assert (a + b)[1..] == a[1..] + b;
      ReplaceAllAppend(a[1..], b, c, rep);
    } else {
      assert a + b == b;
    }
  }

  lemma {:induction false} ReplaceAllAbsent(s: string, c: char, rep: string)
    requires forall i :: 0 <= i < |s| ==> s[i] != c
    ensures ReplaceAll(s, c, rep) == s
  {
    if s != [] {
      ReplaceAllAbsent(s[1..], c, rep);
    }
  }

  lemma {:induction false} ReplaceStepsAppend(a: string, b: string, steps: seq<(char, string)>)
    ensures ReplaceSteps(a + b, steps) == ReplaceSteps(a, steps) + ReplaceSteps(b, steps)
    decreases |steps|
  {
    if steps != [] {
      ReplaceAllAppend(a, b, steps[0].0, steps[0].1);
      ReplaceStepsAppend(ReplaceAll(a, steps[0].0, steps[0].1), ReplaceAll(b, steps[0].0, steps[0].1), steps[1..]);
    }
  }

  /** No character of `s` is replaced by any of the steps. */
  predicate Untouched(s: string, steps: seq<(char, string)>) {
    forall i, k :: 0 <= i < |s| && 0 <= k < |steps| ==> s[i] != steps[k].0
  }

  lemma {:induction false} ReplaceStepsUntouched(s: string, steps: seq<(char, string)>)
    requires Untouched(s, steps)
    ensures ReplaceSteps(s, steps) == s
    decreases |steps|
  {
    if steps != [] {
      ReplaceAllAbsent(s, steps[0].0, steps[0].1);
      assert Untouched(s, steps[1..]) by {
        forall i, k | 0 <= i < |s| && 0 <= k < |steps[1..]| ensures s[i] != steps[1..][k].0 {
          assert steps[1..][k] == steps[k + 1];
        }
      }
      ReplaceStepsUntouched(s, steps[1..]);
    }
  }

  lemma ReplaceAllSingle(x: char, c: char, rep: string)
    ensures ReplaceAll([x], c, rep) == if x == c then rep else [x]
  {
    assert [x][1..] == [];
  }

  /** A single character goes through the steps unchanged until the first
      step that replaces it; after that only its replacement goes on. */
  lemma {:induction false} ReplaceStepsChar(c: char, steps: seq<(char, string)>)
    ensures (forall k :: 0 <= k < |steps| ==> steps[k].0 != c) ==> ReplaceSteps([c], steps) == [c]
    ensures steps != [] && steps[0].0 == c ==> ReplaceSteps([c], steps) == ReplaceSteps(steps[0].1, steps[1..])
    ensures steps != [] && steps[0].0 != c ==> ReplaceSteps([c], steps) == ReplaceSteps([c], steps[1..])
    decreases |steps|
  {
    if steps != [] {
      ReplaceAllSingle(c, steps[0].0, steps[0].1);
      ReplaceStepsChar(c, steps[1..]);
      if forall k :: 0 <= k < |steps| ==> steps[k].0 != c {
        assert forall k :: 0 <= k < |steps[1..]| ==> steps[1..][k].0 == steps[k + 1].0;
      }
    }
  }

  /** A single character matched first by step `k` comes out as that
      step's replacement, provided no later step touches the replacement. */
  lemma {:induction false} ReplaceStepsFirstMatch(c: char, steps: seq<(char, string)>, k: nat)
    requires k < |steps| && steps[k].0 == c
    requires forall j :: 0 <= j < k ==> steps[j].0 != c
    requires Untouched(steps[k].1, steps[k + 1..])
    ensures ReplaceSteps([c], steps) == steps[k].1
    decreases k
  {
    ReplaceAllSingle(c, steps[0].0, steps[0].1);
    if k == 0 {
      ReplaceStepsUntouched(steps[0].1, steps[1..]);
    } else {
      assert steps[1..][k - 1] == steps[k];
      assert steps[1..][k..] == steps[k + 1..];
      ReplaceStepsFirstMatch(c, steps[1..], k - 1);
    }
  }

  /** No step after the `k`-th touches what the `k`-th inserts. */
  lemma ReplacementUntouched(k: nat)
    requires k < |EscapeSteps|
    ensures Untouched(EscapeSteps[k].1, EscapeSteps[k + 1..])
  {
    var rest := EscapeSteps[k + 1..];
    var e := EscapeSteps[k].1;
    forall i, j | 0 <= i < |e| && 0 <= j < |rest| ensures e[i] != rest[j].0 {
      assert rest[j] == EscapeSteps[k + 1 + j];
    }
  }

  /** Every later replacement leaves what an earlier one inserted alone: on a
      single character the chain gives exactly its escape. */
  lemma ReplaceChainChar(c: char)
    ensures ReplaceSteps([c], EscapeSteps) == EscapeChar(c)
  {
    var k := if c == '&' then 0 else if c == '<' then 1 else if c == '>' then 2
             else if c == '"' then 3 else if c == '\'' then 4 else if c == '\n' then 5 else 6;
    if k < 6 {
      ReplacementUntouched(k);
      ReplaceStepsFirstMatch(c, EscapeSteps, k);
    } else {
      ReplaceStepsChar(c, EscapeSteps);
    }
  }

  /** The ordered replace chain escapes the text one character at a time:
      '&' goes first, so no entity the chain inserts is escaped again, and
      the inserted "<br/>" comes last, so its brackets stay. */
  lemma {:induction false} EscapeEachIsChain(s: string)
    ensures ReplaceSteps(s, EscapeSteps) == EscapeEach(s)
  {
    if s != [] {
      EscapeEachIsChain(s[1..]);
      assert s == [s[0]] + s[1..];
      ReplaceStepsAppend([s[0]], s[1..], EscapeSteps);
      ReplaceChainChar(s[0]);
    }
  }

  /** Decoding of the escapes: each entity or "<br/>" back to its character. */
  function Unescape(s: string): string
    decreases |s|
  {
    if s == [] then []
    else if StartsWith(s, "&amp;") then "&" + Unescape(s[5..])
    else if StartsWith(s, "&lt;") then "<" + Unescape(s[4..])
    else if StartsWith(s, "&gt;") then ">" + Unescape(s[4..])
    else if StartsWith(s, "&quot;") then "\"" + Unescape(s[6..])
    else if StartsWith(s, "&#039;") then "'" + Unescape(s[6..])
    else if StartsWith(s, "<br/>") then "\n" + Unescape(s[5..])
    else [s[0]] + Unescape(s[1..])
  }

  /** A text whose `i`-th character differs from the pattern's does not start with it. */
  lemma NotPrefix(s: string, p: string, i: nat)
    requires i < |s| && i < |p| && s[i] != p[i]
    ensures !StartsWith(s, p)
  {
  }

  lemma StartsWithItself(e: string, rest: string)
    ensures StartsWith(e + rest, e) && (e + rest)[|e|..] == rest
  {
    assert (e + rest)[..|e|] == e;
  }

  lemma UnescapeChar(c: char, rest: string)
    ensures Unescape(EscapeChar(c) + rest) == [c] + Unescape(rest)
  {
    var e := EscapeChar(c);
    var s := e + rest;
    StartsWithItself(e, rest);
    if c == '&' {
    } else if c == '<' {
      NotPrefix(s, "&amp;", 1);
    } else if c == '>' {
      NotPrefix(s, "&amp;", 1);
      NotPrefix(s, "&lt;", 1);
    } else if c == '"' {
      NotPrefix(s, "&amp;", 1);
      NotPrefix(s, "&lt;", 1);
      NotPrefix(s, "&gt;", 1);
    } else if c == '\'' {
      NotPrefix(s, "&amp;", 1);
      NotPrefix(s, "&lt;", 1);
      NotPrefix(s, "&gt;", 1);
      NotPrefix(s, "&quot;", 1);
    } else {
      NotPrefix(s, "&amp;", 0);
      NotPrefix(s, "&lt;", 0);
      NotPrefix(s, "&gt;", 0);
      NotPrefix(s, "&quot;", 0);
      NotPrefix(s, "&#039;", 0);
      if c != '\n' {
        NotPrefix(s, "<br/>", 0);
      }
    }
  }

  /** escapeHtml loses nothing: decoding its output gives the text back, so
      different texts are never escaped alike. */
  lemma {:induction false} EscapeHtmlRoundTrip(s: string)
    ensures Unescape(EscapeHtml(s)) == s
  {
    EscapeEachRoundTrip(s);
  }

  lemma {:induction false} EscapeEachRoundTrip(s: string)
    ensures Unescape(EscapeEach(s)) == s
  {
    if s != [] {
      EscapeEachRoundTrip(s[1..]);
      UnescapeChar(s[0], EscapeEach(s[1..]));
    }
  }

  /** The output holds no quote, apostrophe or raw line break, and every
      angle bracket in it belongs to an inserted "<br/>". */
  predicate IsEscaped(r: string) {
    forall i :: 0 <= i < |r| ==> EscapedAt(r, i)
  }

  /** What IsEscaped says about position `i`, written out. */
  predicate EscapedAt(r: string, i: int)
    requires 0 <= i < |r|
  {
    r[i] != '"' && r[i] != '\'' && r[i] != '\n'
    && (r[i] == '<' ==> OccursAt(r, "<br/>", i))
    && (r[i] == '>' ==> i >= 4 && OccursAt(r, "<br/>", i - 4))
  }

  /** A position of `a` keeps its property inside `a + b`. */
  lemma EscapedAtLeft(a: string, b: string, i: int)
    requires 0 <= i < |a| && EscapedAt(a, i)
    ensures EscapedAt(a + b, i)
  {
    assert (a + b)[i] == a[i];
    if a[i] == '<' {
      assert (a + b)[i..i + 5] == a[i..i + 5];
    }
    if a[i] == '>' {
      assert (a + b)[i - 4..i + 1] == a[i - 4..i + 1];
    }
  }

  /** A position of `b` keeps its property, shifted, inside `a + b`. */
  lemma EscapedAtRight(a: string, b: string, j: int)
    requires 0 <= j < |b| && EscapedAt(b, j)
    ensures EscapedAt(a + b, |a| + j)
  {
    var i := |a| + j;
    assert (a + b)[i] == b[j];
    if b[j] == '<' {
      assert (a + b)[i..i + 5] == b[j..j + 5];
    }
    if b[j] == '>' {
      assert (a + b)[i - 4..i + 1] == b[j - 4..j + 1];
    }
  }

  lemma EscapedAppend(a: string, b: string)
    requires IsEscaped(a) && IsEscaped(b)
    ensures IsEscaped(a + b)
  {
    forall i | 0 <= i < |a + b|
      ensures EscapedAt(a + b, i)
    {
      if i < |a| {
        assert EscapedAt(a, i);
        EscapedAtLeft(a, b, i);
      } else {
        assert EscapedAt(b, i - |a|);
        EscapedAtRight(a, b, i - |a|);
      }
    }
  }

  lemma EscapeCharIsEscaped(c: char)
    ensures IsEscaped(EscapeChar(c))
  {
    if c == '\n' {
      assert EscapeChar(c)[0..5] == "<br/>";
    }
  }

  lemma {:induction false} EscapeEachIsEscaped(s: string)
    ensures IsEscaped(EscapeEach(s))
  {
    if s != [] {
      EscapeEachIsEscaped(s[1..]);
      EscapeCharIsEscaped(s[0]);
      EscapedAppend(EscapeChar(s[0]), EscapeEach(s[1..]));
    }
  }

  /** What escapeHtml produces is safe to put inside an HTML attribute or
      element. */
  lemma EscapeHtmlIsEscaped(s: string)
    ensures IsEscaped(EscapeHtml(s))
  {
    EscapeEachIsEscaped(s);
  }

  // ------------------------------------------------- generateClientTimelineJson

  const ClientMaxEvents := 6
  /** Sentences must be strictly longer than this. */
  const ClientMinLength := 20
  const ClientTitleLimit := 60
  const EmptyTimelineJson := "[]"

  /** One item of the client timeline; `year` is null when no year is found. */
  datatype ClientEvent = ClientEvent(year: Option<string>, event: string, details: string)

  /** One piece trimmed the JavaScript way, kept when it is longer than 20
      characters. */
  function ClientSentence(piece: string): (r: seq<string>)
    ensures |r| <= 1
    ensures forall k :: 0 <= k < |r| ==> |r[k]| > ClientMinLength
  {
    var t := Trim(JavaScript, piece);
    if |t| > ClientMinLength then [t] else []
  }

  /** The trimmed pieces longer than 20 characters, in order. */
  function LongSentences(pieces: seq<string>): (r: seq<string>)
    ensures |r| <= |pieces|
    ensures forall k :: 0 <= k < |r| ==> |r[k]| > ClientMinLength
  {
    ConcatMapAtMostOne(ClientSentence, pieces);
    ConcatMapKeeps(ClientSentence, s => |s| > ClientMinLength, pieces);
    ConcatMap(ClientSentence, pieces)
  }

  /** Every piece, wherever it stands, contributes its trimmed text in its
      own place exactly when that is longer than 20 characters, and nothing
      otherwise: the sentences are all the long trimmed pieces, in order. */
  lemma {:induction false} LongSentencesAround(a: seq<string>, p: string, b: seq<string>)
    ensures LongSentences(a + [p] + b)
            == LongSentences(a)
               + (if |Trim(JavaScript, p)| > ClientMinLength then [Trim(JavaScript, p)] else [])
               + LongSentences(b)
  {
    ConcatMapAppend(ClientSentence, a + [p], b);
    ConcatMapAppend(ClientSentence, a, [p]);
    assert [p][..0] == [];
  }

  /** biography.split(/[.\n]+/).map(s => s.trim()).filter(s => s.length > 20) */
  function Sentences(biography: string): (r: seq<string>)
    ensures forall k :: 0 <= k < |r| ==> |r[k]| > ClientMinLength
  {
    LongSentences(SplitAtSeparatorRuns(biography))
  }

  /** The item for one sentence: the plain (19|20)\d{2} match, the title cut
      at 60 characters and the sentence itself. */
  function MakeClientEvent(s: string): ClientEvent {
    ClientEvent(YearMatch(s, false),
                if |s| > ClientTitleLimit then s[..ClientTitleLimit] + Ellipsis else s,
                s)
  }

  /** The items generateClientTimelineJson collects. */
  function ClientTimeline(biography: string): seq<ClientEvent> {
    Take(Map(MakeClientEvent, Sentences(biography)), ClientMaxEvents)
  }

  /** The array JSON.stringify is given: lower-case keys, year null when absent. */
  function ClientTimelineJson(items: seq<ClientEvent>): (doc: Json)
    ensures doc.JArray? && |doc.items| == |items|
    ensures forall k :: 0 <= k < |items| ==>
              (doc.items[k].JObject?
               && doc.items[k].fields.Keys == {"year", "event", "details"}
               && doc.items[k].fields["year"] == (if items[k].year.None? then JNull else JString(items[k].year.value))
               && doc.items[k].fields["event"] == JString(items[k].event)
               && doc.items[k].fields["details"] == JString(items[k].details))
  {
    JArray(Map(ClientEventJson, items))
  }

  function ClientEventJson(e: ClientEvent): Json {
    JObject(map["year" := (match e.year case Some(y) => JString(y) case None => JNull),
                "event" := JString(e.event),
                "details" := JString(e.details)])
  }

  /** generateClientTimelineJson: '[]' for a falsy biography; otherwise walk
      the sentences, pushing one item each, until six items are collected. */
  method GenerateClientTimelineJson(serialize: Json -> string, biography: string) returns (json: string)
    ensures biography == "" ==> json == EmptyTimelineJson
    ensures biography != "" ==> json == serialize(ClientTimelineJson(ClientTimeline(biography)))
  {
    if biography == "" {
      return EmptyTimelineJson;
    }
    var sentences := Sentences(biography);
    var items: seq<ClientEvent> := [];
    var i := 0;
    while i < |sentences| && |items| < ClientMaxEvents
      invariant 0 <= i <= |sentences| && i <= ClientMaxEvents && |items| == i
      invariant items == Map(MakeClientEvent, sentences[..i])
    {
      var s := sentences[i];
      var year: Option<string> := None;
      var m := YearMatch(s, false);
      if m.Some? {
        year := m;
      }
      var event := if |s| > ClientTitleLimit then s[..ClientTitleLimit] + Ellipsis else s;
      ClientStep(sentences, i, year, event);
      items := items + [ClientEvent(year, event, s)];
      i := i + 1;
    }
    ClientStop(sentences, i);
    json := serialize(ClientTimelineJson(items));
  }

  /** One pass of the loop pushes the item of the next sentence. */
  lemma ClientStep(sentences: seq<string>, i: nat, year: Option<string>, event: string)
    requires i < |sentences|
    requires year == YearMatch(sentences[i], false)
    requires event == if |sentences[i]| > ClientTitleLimit then sentences[i][..ClientTitleLimit] + Ellipsis else sentences[i]
    ensures Map(MakeClientEvent, sentences[..i + 1])
            == Map(MakeClientEvent, sentences[..i]) + [ClientEvent(year, event, sentences[i])]
  {
    MapSnoc(MakeClientEvent, sentences[..i], sentences[i]);
    assert sentences[..i + 1] == sentences[..i] + [sentences[i]];
  }

  /** The loop stops at the end of the sentences or after six items: what it
      has pushed by then is the first six items, or all of them. */
  lemma ClientStop(sentences: seq<string>, i: nat)
    requires i <= |sentences| && i <= ClientMaxEvents
    requires !(i < |sentences| && i < ClientMaxEvents)
    ensures Map(MakeClientEvent, sentences[..i]) == Take(Map(MakeClientEvent, sentences), ClientMaxEvents)
  {
    if i == |sentences| {
      assert sentences[..i] == sentences;
    } else {
      assert Map(MakeClientEvent, sentences)[..i] == Map(MakeClientEvent, sentences[..i]);
    }
  }

  /** The shape of the client timeline: at most six items, in sentence order;
      each keeps its sentence as details, titles it with the first 60
      characters and "..." when longer, and takes the first plain year match,
      or null. */
  lemma ClientTimelineShape(biography: string)
    ensures var items := ClientTimeline(biography);
            |items| <= ClientMaxEvents
            && |items| == (if |Sentences(biography)| < ClientMaxEvents then |Sentences(biography)| else ClientMaxEvents)
            && forall k :: 0 <= k < |items| ==>
                 var s := Sentences(biography)[k];
                 && items[k].details == s
                 && |s| > ClientMinLength
                 && items[k].event == (if |s| > ClientTitleLimit then s[..ClientTitleLimit] + Ellipsis else s)
                 && |items[k].event| <= ClientTitleLimit + |Ellipsis|
                 && items[k].year == YearMatch(s, false)
  {
    var sentences := Sentences(biography);
    var all := Map(MakeClientEvent, sentences);
    var items := ClientTimeline(biography);
    assert items == Take(all, ClientMaxEvents);
    forall k | 0 <= k < |items|
      ensures items[k] == MakeClientEvent(sentences[k]) && |sentences[k]| > ClientMinLength
    {
      assert items[k] == all[k];
    }
  }

  /** The browser finds a year in every sentence in which the server's
      word-bounded search finds one. */
  lemma ClientFindsServerYears(biography: string, k: nat)
    requires k < |ClientTimeline(biography)|
    requires FirstYearFrom(ClientTimeline(biography)[k].details, true, 0).Some?
    ensures ClientTimeline(biography)[k].year.Some?
  {
    BrowserYearNoLaterThanServer(ClientTimeline(biography)[k].details);
  }

  // ------------------------------------------------------------ profile status

  /** The four bands of getProfileStatusText and getProfileStatusClass. */
  datatype ProfileBand = Complete | Detailed | Basic | Limited

  function BandOf(score: real): ProfileBand {
    if score >= 0.9 then Complete
    else if score >= 0.6 then Detailed
    else if score >= 0.3 then Basic
    else Limited
  }

  /** The order of the bands, from the least to the most complete profile. */
  function Rank(b: ProfileBand): nat {
    match b
    case Limited => 0
    case Basic => 1
    case Detailed => 2
    case Complete => 3
  }

  function BandText(b: ProfileBand): string {
    match b
    case Complete => "Perfil completo"
    case Detailed => "Perfil detallado"
    case Basic => "Perfil básico"
    case Limited => "Información limitada"
  }

  function BandClass(b: ProfileBand): string {
    match b
    case Complete => "status-complete"
    case Detailed => "status-detailed"
    case Basic => "status-basic"
    case Limited => "status-limited"
  }

  /** getProfileStatusText: its own threshold chain selects the same band as
      the class does. */
  function ProfileStatusText(score: real): (t: string)
    ensures t == BandText(BandOf(score))
  {
    if score >= 0.9 then "Perfil completo"
    else if score >= 0.6 then "Perfil detallado"
    else if score >= 0.3 then "Perfil básico"
    else "Información limitada"
  }

  /** getProfileStatusClass. */
  function ProfileStatusClass(score: real): (c: string)
    ensures c == BandClass(BandOf(score))
  {
    if score >= 0.9 then "status-complete"
    else if score >= 0.6 then "status-detailed"
    else if score >= 0.3 then "status-basic"
    else "status-limited"
  }

  /** Text and class always agree: each text comes with exactly one class. */
  lemma StatusTextDeterminesClass(s1: real, s2: real)
    requires ProfileStatusText(s1) == ProfileStatusText(s2)
    ensures ProfileStatusClass(s1) == ProfileStatusClass(s2)
  {
  }

  /** A higher score never lands in a lower band. */
  lemma BandMonotone(s1: real, s2: real)
    requires s1 <= s2
    ensures Rank(BandOf(s1)) <= Rank(BandOf(s2))
  {
  }

  // ------------------------------------------------------ classification class

  const UnknownClass := "class-unknown"
  const DefaultClass := "class-default"

  /** getClassificationClass: 'class-unknown' for a falsy text; otherwise the
      first of "exitosa", "emergente", "leyenda", "independiente" that the
      lower-cased text contains decides, and 'class-default' when none does. */
  function ClassificationClass(classification: string): (r: string)
    ensures r == UnknownClass <==> classification == ""
    ensures r == "class-success" <==> classification != "" && Contains(ToLowerAscii(classification), "exitosa")
    ensures r == "class-rising" <==>
              classification != "" && !Contains(ToLowerAscii(classification), "exitosa")
              && Contains(ToLowerAscii(classification), "emergente")
    ensures r == "class-legend" <==>
              classification != "" && !Contains(ToLowerAscii(classification), "exitosa")
              && !Contains(ToLowerAscii(classification), "emergente")
              && Contains(ToLowerAscii(classification), "leyenda")
    ensures r == "class-indie" <==>
              classification != "" && !Contains(ToLowerAscii(classification), "exitosa")
              && !Contains(ToLowerAscii(classification), "emergente")
              && !Contains(ToLowerAscii(classification), "leyenda")
              && Contains(ToLowerAscii(classification), "independiente")
    ensures r == DefaultClass <==>
              classification != ""
              && !Contains(ToLowerAscii(classification), "exitosa")
              && !Contains(ToLowerAscii(classification), "emergente")
              && !Contains(ToLowerAscii(classification), "leyenda")
              && !Contains(ToLowerAscii(classification), "independiente")
  {
    if classification == "" then UnknownClass
    else
      var text := ToLowerAscii(classification);
      if Contains(text, "exitosa") then "class-success"
      else if Contains(text, "emergente") then "class-rising"
      else if Contains(text, "leyenda") then "class-legend"
      else if Contains(text, "independiente") then "class-indie"
      else DefaultClass
  }
}

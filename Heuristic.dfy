/** The server's local timeline heuristic (AnalysisService.GenerateSimpleTimeline):
    a timeline synthesised from the biography alone, used whenever the AI
    timeline is missing or unusable. */
module Heuristic {
  import opened Wrappers
  import opened Text
  import opened Years
  import opened Json

  /** TimelineEventDto. */
  datatype TimelineEvent = TimelineEvent(year: string, event: string, details: string)

  const MinFragmentLength := 20
  const EventTitleLimit := 220
  const MaxEvents := 8
  const UnknownYear := "Unknown"
  const Ellipsis := "..."

  /** The fragments the loop visits: the biography split on '\n' and '.',
      with StringSplitOptions.RemoveEmptyEntries. */
  function Lines(biography: string): seq<string> {
    NonEmpty(SplitAtSeparators(biography))
  }

  /** `f` applied to every fragment, the results concatenated in order. */
  function ConcatMap(f: string -> seq<string>, lines: seq<string>): seq<string> {
    if lines == [] then [] else ConcatMap(f, lines[..|lines| - 1]) + f(lines[|lines| - 1])
  }

  /** A fragment after Trim, kept only when it is at least 20 characters long. */
  function Kept(line: string): (r: seq<string>)
    ensures |r| <= 1
    ensures r == [] <==> |Trim(DotNet, line)| < MinFragmentLength
    ensures r != [] ==> r[0] == Trim(DotNet, line) && IsTrimmedFragment(r[0])
  {
    var t := Trim(DotNet, line);
    if |t| < MinFragmentLength then [] else [t]
  }

  /** At least 20 characters long, with no white space at either end. */
  predicate IsTrimmedFragment(t: string) {
    |t| >= MinFragmentLength && !IsDotNetWhiteSpace(t[0]) && !IsDotNetWhiteSpace(t[|t| - 1])
  }

  /** The trimmed fragments that are at least 20 characters long, in order. */
  function Qualifying(lines: seq<string>): seq<string> {
    ConcatMap(Kept, lines)
  }

  /** The event made from one qualifying fragment. */
  function MakeEvent(t: string): TimelineEvent {
    TimelineEvent(
      YearText(t),
      if |t| > EventTitleLimit then t[..EventTitleLimit] + Ellipsis else t,
      t)
  }

  /** The first word-bounded year of a fragment, or "Unknown". */
  function YearText(t: string): string {
    match YearMatch(t, true) case Some(y) => y case None => UnknownYear
  }

  /** `f` applied to every element. */
  function Map<A, B>(f: A -> B, s: seq<A>): (r: seq<B>)
    ensures |r| == |s| && forall k :: 0 <= k < |s| ==> r[k] == f(s[k])
  {
    seq(|s|, k requires 0 <= k < |s| => f(s[k]))
  }

  function Events(q: seq<string>): seq<TimelineEvent> {
    Map(MakeEvent, q)
  }

  function Take<T>(s: seq<T>, n: nat): seq<T> {
    if |s| <= n then s else s[..n]
  }

  /** The timeline the heuristic yields for a biography. */
  function SimpleTimeline(biography: string): seq<TimelineEvent> {
    Take(Events(Qualifying(Lines(biography))), MaxEvents)
  }

  /** The timeline as JsonSerializer.Serialize sees it with default options:
      the property names keep their PascalCase spelling. */
  function TimelineJson(events: seq<TimelineEvent>): (doc: Json)
    ensures doc.JArray? && |doc.items| == |events|
    ensures forall k :: 0 <= k < |events| ==>
              && doc.items[k].JObject?
              && doc.items[k].fields.Keys == {"Year", "Event", "Details"}
              && doc.items[k].fields["Year"] == JString(events[k].year)
              && doc.items[k].fields["Event"] == JString(events[k].event)
              && doc.items[k].fields["Details"] == JString(events[k].details)
  {
    JArray(seq(|events|, k requires 0 <= k < |events| => EventJson(events[k])))
  }

  function EventJson(e: TimelineEvent): Json {
    JObject(map["Year" := JString(e.year), "Event" := JString(e.event), "Details" := JString(e.details)])
  }

  /** ConcatMap distributes over concatenation: the qualifying fragments of an
      earlier part of the text come before those of a later part, so events
      follow source order. */
  lemma {:induction false} ConcatMapAppend(f: string -> seq<string>, a: seq<string>, b: seq<string>)
    ensures ConcatMap(f, a + b) == ConcatMap(f, a) + ConcatMap(f, b)
    decreases |b|
  {
    if b == [] {
      assert a + b == a;
    } else {
      var b' := b[..|b| - 1];
      var last := b[|b| - 1];
      assert (a + b)[..|a + b| - 1] == a + b';
      assert (a + b)[|a + b| - 1] == last;
      calc {
        ConcatMap(f, a + b);
        ConcatMap(f, a + b') + f(last);
        { ConcatMapAppend(f, a, b'); }
        (ConcatMap(f, a) + ConcatMap(f, b')) + f(last);
        ConcatMap(f, a) + (ConcatMap(f, b') + f(last));
        ConcatMap(f, a) + ConcatMap(f, b);
      }
    }
  }

  /** GenerateSimpleTimeline: the loop over the fragments, with its early exit
      once eight events have been collected, serialised at the end. */
  method GenerateSimpleTimeline(serialize: Json -> string, biography: string) returns (json: string)
    ensures json == serialize(TimelineJson(SimpleTimeline(biography)))
  {
    var timeline := CollectEvents(Lines(biography));
    json := serialize(TimelineJson(timeline));
  }

  /** The loop of GenerateSimpleTimeline over the fragments, with its early
      exit once eight events have been collected. */
  method CollectEvents(lines: seq<string>) returns (timeline: seq<TimelineEvent>)
    ensures timeline == Take(Events(Qualifying(lines)), MaxEvents)
  {
    timeline := [];
    var i := 0;
    while i < |lines|
      invariant 0 <= i <= |lines|
      invariant timeline == Events(Qualifying(lines[..i]))
      invariant |timeline| < MaxEvents
    {
      var trimmedLine := Trim(DotNet, lines[i]);
      if |trimmedLine| < MinFragmentLength {
        SkipStep(lines, i);
      } else {
        var m := YearMatch(trimmedLine, true);
        var year := if m.Some? then m.value else UnknownYear;
        var eventText := if |trimmedLine| > EventTitleLimit
                         then trimmedLine[..EventTitleLimit] + Ellipsis
                         else trimmedLine;
        EventOf(trimmedLine, m, eventText);
        KeepStep(lines, i);
        timeline := timeline + [TimelineEvent(year, eventText, trimmedLine)];
        if |timeline| >= MaxEvents {
          StopAtCap(lines, i + 1, timeline);
          break;
        }
      }
      i := i + 1;
    }
    if i == |lines| {
      AllFragmentsSeen(lines, timeline);
    }
  }

  lemma AllFragmentsSeen(lines: seq<string>, timeline: seq<TimelineEvent>)
    requires timeline == Events(Qualifying(lines[..|lines|])) && |timeline| < MaxEvents
    ensures Take(Events(Qualifying(lines)), MaxEvents) == timeline
  {
    assert lines[..|lines|] == lines;
  }

  lemma EventOf(t: string, m: Option<string>, eventText: string)
    requires m == YearMatch(t, true)
    requires eventText == if |t| > EventTitleLimit then t[..EventTitleLimit] + Ellipsis else t
    ensures TimelineEvent(if m.Some? then m.value else UnknownYear, eventText, t) == MakeEvent(t)
  {
  }

  /** A fragment shorter than 20 characters once trimmed adds no event. */
  lemma SkipStep(lines: seq<string>, i: nat)
    requires i < |lines| && |Trim(DotNet, lines[i])| < MinFragmentLength
    ensures Events(Qualifying(lines[..i + 1])) == Events(Qualifying(lines[..i]))
  {
    QualifyingStep(lines, i);
    assert Qualifying(lines[..i]) + Kept(lines[i]) == Qualifying(lines[..i]);
  }

  /** A fragment of 20 characters or more once trimmed adds its event last. */
  lemma KeepStep(lines: seq<string>, i: nat)
    requires i < |lines| && |Trim(DotNet, lines[i])| >= MinFragmentLength
    ensures Events(Qualifying(lines[..i + 1]))
            == Events(Qualifying(lines[..i])) + [MakeEvent(Trim(DotNet, lines[i]))]
  {
    QualifyingStep(lines, i);
    assert Kept(lines[i]) == [Trim(DotNet, lines[i])];
    EventsSnoc(Qualifying(lines[..i]), Trim(DotNet, lines[i]));
  }

  lemma QualifyingStep(lines: seq<string>, i: nat)
    requires i < |lines|
    ensures Qualifying(lines[..i + 1]) == Qualifying(lines[..i]) + Kept(lines[i])
  {
    ConcatMapStep(Kept, lines, i);
  }

  lemma ConcatMapStep(f: string -> seq<string>, lines: seq<string>, i: nat)
    requires i < |lines|
    ensures ConcatMap(f, lines[..i + 1]) == ConcatMap(f, lines[..i]) + f(lines[i])
  {
    assert lines[..i + 1][..i] == lines[..i];
  }

  lemma EventsSnoc(q: seq<string>, t: string)
    ensures Events(q + [t]) == Events(q) + [MakeEvent(t)]
  {
    MapSnoc(MakeEvent, q, t);
  }

  lemma MapSnoc<A, B>(f: A -> B, s: seq<A>, x: A)
    ensures Map(f, s + [x]) == Map(f, s) + [f(x)]
  {
  }

  /** Once the fragments up to `n` have yielded eight events, the rest of the
      text can add events only after them, so they are the first eight. */
  lemma StopAtCap(lines: seq<string>, n: nat, timeline: seq<TimelineEvent>)
    requires n <= |lines| && timeline == Events(Qualifying(lines[..n])) && |timeline| == MaxEvents
    ensures Take(Events(Qualifying(lines)), MaxEvents) == timeline
  {
    PrefixDecidesTake(Kept, MakeEvent, lines, n, MaxEvents);
    assert timeline[..MaxEvents] == timeline;
  }

  lemma PrefixDecidesTake<B>(f: string -> seq<string>, g: string -> B, lines: seq<string>, n: nat, cap: nat)
    requires n <= |lines| && |ConcatMap(f, lines[..n])| >= cap
    ensures Take(Map(g, ConcatMap(f, lines)), cap) == Map(g, ConcatMap(f, lines[..n]))[..cap]
  {
    ConcatMapAppend(f, lines[..n], lines[n..]);
    assert lines[..n] + lines[n..] == lines;
  }

  /** What the heuristic promises about its timeline: at most eight events,
      one per qualifying fragment and in their order, and no more than eight
      only because it stops there. */
  lemma SimpleTimelineShape(biography: string)
    ensures var q := Qualifying(Lines(biography));
            var r := SimpleTimeline(biography);
            |r| <= MaxEvents
            && |r| == (if |q| < MaxEvents then |q| else MaxEvents)
            && forall k :: 0 <= k < |r| ==> r[k] == MakeEvent(q[k])
  {
  }

  /** The fields of an event made from a fragment: Details is the full
      fragment, Event is the fragment or its first 220 characters and "...",
      so at most 223 long, and Year is the first word-bounded 19xx/20xx in the
      fragment or "Unknown" when there is none. */
  lemma EventFields(t: string)
    ensures MakeEvent(t).details == t
    ensures |t| <= EventTitleLimit ==> MakeEvent(t).event == t
    ensures |t| > EventTitleLimit ==> MakeEvent(t).event == t[..EventTitleLimit] + Ellipsis
    ensures |MakeEvent(t).event| <= EventTitleLimit + |Ellipsis|
    ensures MakeEvent(t).year == UnknownYear <==> forall i :: !BoundedYearAt(t, i)
    ensures MakeEvent(t).year != UnknownYear ==>
              exists i :: BoundedYearAt(t, i) && MakeEvent(t).year == t[i..i + 4]
                          && forall j :: 0 <= j < i ==> !BoundedYearAt(t, j)
  {
    var m := FirstYearFrom(t, true, 0);
    if m.Some? {
      var i := m.value;
      assert YearAt(t, i, true);
      assert YearText(t) == t[i..i + 4];
      assert |YearText(t)| == 4;
      forall j | 0 <= j < i ensures !BoundedYearAt(t, j) {
        assert !YearAt(t, j, true);
      }
    } else {
      forall i ensures !BoundedYearAt(t, i) {
        if 0 <= i {
          assert !YearAt(t, i, true);
        }
      }
    }
  }

  /** Every event comes from a fragment of at least 20 characters that has
      been trimmed: its details carry no white space at either end. */
  lemma EventsComeFromTrimmedLongFragments(biography: string, k: nat)
    requires k < |SimpleTimeline(biography)|
    ensures IsTrimmedFragment(SimpleTimeline(biography)[k].details)
  {
    var q := Qualifying(Lines(biography));
    ConcatMapKeeps(Kept, IsTrimmedFragment, Lines(biography));
    assert SimpleTimeline(biography)[k] == MakeEvent(q[k]);
  }

  /** When every fragment yields at most one piece, there are no more pieces
      than fragments. */
  lemma {:induction false} ConcatMapAtMostOne(f: string -> seq<string>, lines: seq<string>)
    requires forall x :: |f(x)| <= 1
    ensures |ConcatMap(f, lines)| <= |lines|
  {
    if lines != [] {
      ConcatMapAtMostOne(f, lines[..|lines| - 1]);
    }
  }

  /** A property that every piece `f` yields has holds of every element of
      the concatenation. */
  lemma {:induction false} ConcatMapKeeps(f: string -> seq<string>, P: string -> bool, lines: seq<string>)
    requires forall x, k :: 0 <= k < |f(x)| ==> P(f(x)[k])
    ensures forall k :: 0 <= k < |ConcatMap(f, lines)| ==> P(ConcatMap(f, lines)[k])
  {
    if lines != [] {
      var init := lines[..|lines| - 1];
      ConcatMapKeeps(f, P, init);
      var c := ConcatMap(f, lines);
      assert c == ConcatMap(f, init) + f(lines[|lines| - 1]);
      forall k | 0 <= k < |c| ensures P(c[k]) {
        if k >= |ConcatMap(f, init)| {
          assert c[k] == f(lines[|lines| - 1])[k - |ConcatMap(f, init)|];
        }
      }
    }
  }
}

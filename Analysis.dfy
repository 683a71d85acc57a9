/** The analysis pipeline (Services/AnalysisService.cs): AnalyzeArtist runs the
    biography lookup, the classification, the timeline generation and the
    image and score lookup one after another, each with its own error policy.
    The collaborators are parameters; the result records which of them were
    called, in order. */
module Analysis {
  import opened Wrappers
  import opened Faults
  import opened Json
  import opened Text
  import opened Heuristic
  import opened Labels
  import opened AudioDb

  const MissingNameMessage := "El nombre del artista es obligatorio."
  const NotFoundPrefix := "Artista '"
  const NotFoundSuffix := "' no encontrado."

  /** The collaborator calls AnalyzeArtist can make. */
  datatype Call = FetchBiography | Classify | GenerateAiTimeline | FetchImageAndScore

  /** The order in which the calls are made when every stage succeeds. */
  const Pipeline: seq<Call> := [FetchBiography, Classify, GenerateAiTimeline, FetchImageAndScore]

  /** What each collaborator answers for its input: GetArtistBiography and
      GetArtistImageAndScore for the artist name, ClassifyBiography and
      GenerateTimeline for the biography. */
  datatype Collaborators = Collaborators(
    biography: string -> Result<Option<string>, Fault>,
    classify: string -> Result<string, Fault>,
    generateTimeline: string -> Result<string, Fault>,
    imageAndScore: string -> Result<ImageAndScore, Fault>)

  /** ArtistAnalysisResponseDto, with the score in hundredths. */
  datatype ArtistAnalysis = ArtistAnalysis(
    artistName: string, biography: string, score: nat, imageUrl: string,
    classification: string, timeline: string)

  /** The outcome of one analysis and the calls it made. */
  datatype Run = Run(outcome: Result<ArtistAnalysis, Fault>, calls: seq<Call>)

  /** The KeyNotFoundException message for an artist without a biography. */
  function NotFoundMessage(artistName: string): (m: string)
    ensures OccursAt(m, artistName, |NotFoundPrefix|)
  {
    NotFoundPrefix + artistName + NotFoundSuffix
  }

  /** The heuristic timeline of a biography, serialised: what
      Heuristic.GenerateSimpleTimeline returns. */
  function HeuristicTimeline(serialize: Json -> string, biography: string): string {
    serialize(TimelineJson(SimpleTimeline(biography)))
  }

  /** The shallow check of GenerateTimelineWithFallback: not blank, starts
      with '[' once leading white space is removed, and parses as JSON. */
  predicate AcceptsAiTimeline(parse: string -> Option<Json>, timeline: string)
    // accepted exactly when it parses and '[' is its first character that
    // is not white space: a text that does not parse falls back
    ensures AcceptsAiTimeline(parse, timeline) <==> parse(timeline).Some? && FirstNonWhiteIs(timeline, '[')
  {
    TrimStartStartsWith(timeline, '[');
    !IsBlank(timeline) && StartsWith(TrimStart(DotNet, timeline), "[") && parse(timeline).Some?
  }

  /** GenerateTimelineWithFallback, given what GenerateTimeline produced: the
      AI text verbatim when it passes the shallow check, and the heuristic
      timeline in every other case, a thrown error included. */
  function TimelineWithFallback(codec: JsonCodec, ai: Result<string, Fault>, biography: string): (t: string)
    ensures t == HeuristicTimeline(codec.serialize, biography) || AcceptsAiTimeline(codec.parse, t)
    ensures t != HeuristicTimeline(codec.serialize, biography) ==> ai == Success(t)
    ensures ai.Success? && AcceptsAiTimeline(codec.parse, ai.value) ==> t == ai.value
  {
    if ai.Success? && AcceptsAiTimeline(codec.parse, ai.value) then ai.value
    else HeuristicTimeline(codec.serialize, biography)
  }

  /** AnalyzeArtist. */
  function AnalyzeArtist(codec: JsonCodec, c: Collaborators, artistName: string): (r: Run)
    // the calls made are always a prefix of the pipeline order
    ensures |r.calls| <= |Pipeline| && r.calls == Pipeline[..|r.calls|]
    // a blank name is rejected before any call
    ensures IsBlank(artistName) ==> r == Run(Failure(ArgumentError(MissingNameMessage)), [])
    // a failed biography lookup, or a missing or blank biography, stops after the lookup
    ensures !IsBlank(artistName) && c.biography(artistName).Failure?
            ==> r == Run(Failure(c.biography(artistName).error), [FetchBiography])
    ensures !IsBlank(artistName) && c.biography(artistName).Success?
            && (c.biography(artistName).value.None? || IsBlank(c.biography(artistName).value.value))
            ==> r == Run(Failure(KeyNotFound(NotFoundMessage(artistName))), [FetchBiography])
    // a classification error propagates and nothing else is called
    ensures r.calls == [FetchBiography, Classify]
            ==> c.biography(artistName).Success? && c.biography(artistName).value.Some?
                && c.classify(c.biography(artistName).value.value).Failure?
                && r.outcome == Failure(c.classify(c.biography(artistName).value.value).error)
    ensures !IsBlank(artistName) && c.biography(artistName).Success?
            && c.biography(artistName).value.Some? && !IsBlank(c.biography(artistName).value.value)
            ==> var biography := c.biography(artistName).value.value;
                && (c.classify(biography).Failure?
                    ==> r == Run(Failure(c.classify(biography).error), [FetchBiography, Classify]))
                && (c.classify(biography).Success? ==> r.calls == Pipeline)
    // once the classification succeeds every stage runs, and only the image
    // and score lookup can still fail, with its own error: a timeline error
    // is swallowed
    ensures |r.calls| > 2 ==> r.calls == Pipeline
    ensures r.calls == Pipeline ==>
              (r.outcome.Failure? <==> c.imageAndScore(artistName).Failure?)
              && (r.outcome.Failure? ==> r.outcome == Failure(c.imageAndScore(artistName).error))
    ensures r.outcome.Success? ==>
              r.calls == Pipeline
              && var biography := c.biography(artistName).value.value;
                 var found := c.imageAndScore(artistName).value;
                 && r.outcome.value.artistName == artistName
                 && r.outcome.value.biography == biography
                 && !IsBlank(biography)
                 && r.outcome.value.score == found.score
                 && r.outcome.value.imageUrl == found.imageUrl.GetOr("")
                 && c.classify(biography).Success?
                 && r.outcome.value.classification == Translate(BestLabel(codec.parse(c.classify(biography).value)))
                 && r.outcome.value.timeline == TimelineWithFallback(codec, c.generateTimeline(biography), biography)
  {
    if IsBlank(artistName) then Run(Failure(ArgumentError(MissingNameMessage)), [])
    else
      match c.biography(artistName)
      case Failure(e) => Run(Failure(e), [FetchBiography])
      case Success(found) =>
        if found.None? || IsBlank(found.value) then
          Run(Failure(KeyNotFound(NotFoundMessage(artistName))), [FetchBiography])
        else
          var biography := found.value;
          match c.classify(biography)
          case Failure(e) => Run(Failure(e), [FetchBiography, Classify])
          case Success(aiResult) =>
            var classification := Translate(BestLabel(codec.parse(aiResult)));
            var timeline := TimelineWithFallback(codec, c.generateTimeline(biography), biography);
            match c.imageAndScore(artistName)
            case Failure(e) => Run(Failure(e), Pipeline)
            case Success(found) =>
              Run(Success(ArtistAnalysis(artistName, biography, found.score, found.imageUrl.GetOr(""),
                                         classification, timeline)), Pipeline)
  }

  /** The AI timeline never decides whether an analysis succeeds: replacing
      the timeline generator changes at most the timeline of the result. */
  lemma TimelineGeneratorOnlyAffectsTimeline(codec: JsonCodec, c: Collaborators,
                                             other: string -> Result<string, Fault>, artistName: string)
    ensures var r1 := AnalyzeArtist(codec, c, artistName);
            var r2 := AnalyzeArtist(codec, c.(generateTimeline := other), artistName);
            r1.calls == r2.calls && r1.outcome.Success? == r2.outcome.Success?
            && (r1.outcome.Failure? ==> r1.outcome == r2.outcome)
            && (r1.outcome.Success? ==> r1.outcome.value.(timeline := "") == r2.outcome.value.(timeline := ""))
  {
  }

  /** An array that TryExtractJsonArray would hand back always passes the
      shallow check: it starts with '[' and parses. */
  lemma {:induction false} BracketedArrayIsAccepted(parse: string -> Option<Json>, text: string)
    requires |text| > 0 && text[0] == '[' && parse(text).Some?
    ensures AcceptsAiTimeline(parse, text)
  {
    TrimStartDropsOnlyWhiteSpace(DotNet, text);
    assert !IsDotNetWhiteSpace(text[0]);
    assert TrimStart(DotNet, text) == text;
  }
}

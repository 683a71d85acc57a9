/** The application as Program.cs wires it: the controller calls the analysis
    service, which calls the TheAudioDB and Hugging Face services. Each
    upstream HTTP request is represented by the response it returned. */
module EndToEnd {
  import opened Wrappers
  import opened Faults
  import opened Json
  import opened Text
  import opened AudioDb
  import opened HuggingFace
  import opened Analysis
  import opened ArtistApi

  /** The four upstream responses one analysis meets: TheAudioDB's search is
      sent twice (once for the biography, once for the image and score),
      then the classifier and the text generator are asked once each. */
  datatype Upstream = Upstream(
    biographySearch: HttpResponse, imageSearch: HttpResponse,
    classifier: HttpResponse, generator: HttpResponse)

  /** The collaborators of the analysis service: the service models, each
      answering with its upstream response. */
  function Services(codec: JsonCodec, up: Upstream): (c: Collaborators)
    ensures forall n :: c.biography(n) == Biography(codec.parse, n, up.biographySearch)
    ensures forall b :: c.classify(b) == ClassifyBiography(codec.parse, b, up.classifier)
    ensures forall b :: c.generateTimeline(b) == GenerateTimeline(codec.parse, b, up.generator)
    ensures forall n :: c.imageAndScore(n) == ImageAndScoreOf(codec.parse, n, up.imageSearch)
  {
    Collaborators(
      n => Biography(codec.parse, n, up.biographySearch),
      b => ClassifyBiography(codec.parse, b, up.classifier),
      b => GenerateTimeline(codec.parse, b, up.generator),
      n => ImageAndScoreOf(codec.parse, n, up.imageSearch))
  }

  /** GET api/artist/analyze?name=... */
  function Handle(codec: JsonCodec, up: Upstream, name: string): (a: ActionResult)
    ensures IsBlank(name) ==> a == BadRequest(MissingNameMessage)
    ensures a.Ok? ==> a.analysis.artistName == name && a.analysis.score in {0, 33, 67, 100}
  {
    Analyze(codec, Services(codec, up), name).0
  }

  /** For a name that is not blank, none of the services raises the
      exceptions the controller answers with 400 or 404. */
  lemma ServicesRaiseNeitherArgumentNorKeyErrors(codec: JsonCodec, up: Upstream, name: string)
    requires !IsBlank(name)
    ensures var r := AnalyzeArtist(codec, Services(codec, up), name).outcome;
            r.Failure? && (r.error.ArgumentError? || r.error.KeyNotFound?)
            ==> r.error == KeyNotFound(NotFoundMessage(name))
  {
    var c := Services(codec, up);
    var bio := c.biography(name);
    if bio.Success? && bio.value.Some? && !IsBlank(bio.value.value) {
      var cls := c.classify(bio.value.value);
      assert cls.Failure? ==> cls.error == HttpFailure(up.classifier.status) || cls.error == InvalidOperation;
    }
  }

  /** With the real services a named artist is never answered with 400: the
      services' own argument checks are unreachable once the controller has
      accepted the name, and the orchestrator only hands them a biography
      that is not blank. */
  lemma BadRequestOnlyForBlankName(codec: JsonCodec, up: Upstream, name: string)
    ensures Handle(codec, up, name).BadRequest? <==> IsBlank(name)
  {
    if !IsBlank(name) {
      ServicesRaiseNeitherArgumentNorKeyErrors(codec, up, name);
    }
  }

  /** 404 answers exactly a search without a usable biography, and its
      message names the artist. */
  lemma NotFoundExactlyWithoutBiography(codec: JsonCodec, up: Upstream, name: string)
    requires !IsBlank(name)
    ensures var bio := Biography(codec.parse, name, up.biographySearch);
            Handle(codec, up, name).NotFound?
            <==> bio.Success? && (bio.value.None? || IsBlank(bio.value.value))
    ensures Handle(codec, up, name).NotFound? ==> Handle(codec, up, name).message == NotFoundMessage(name)
  {
    ServicesRaiseNeitherArgumentNorKeyErrors(codec, up, name);
    var c := Services(codec, up);
    assert c.biography(name) == Biography(codec.parse, name, up.biographySearch);
  }

  /** Upstream trouble with the biography search (a failed request, a body
      that is not JSON, a root that is not an object, a first artist that is
      not an object or whose biography is neither a string nor null) surfaces
      as 500 with the generic message. */
  lemma UpstreamFailuresAreInternalErrors(codec: JsonCodec, up: Upstream, name: string)
    requires !IsBlank(name)
    requires || !IsSuccessStatusCode(up.biographySearch)
             || codec.parse(up.biographySearch.body).None?
             || !codec.parse(up.biographySearch.body).value.JObject?
             || (ListsArtists(codec.parse(up.biographySearch.body).value)
                 && (!FirstListed(codec.parse(up.biographySearch.body).value).JObject?
                     || Malformed(FirstListed(codec.parse(up.biographySearch.body).value).fields, "strBiographyEN")))
    ensures Handle(codec, up, name) == InternalError(InternalErrorMessage)
  {
    assert Biography(codec.parse, name, up.biographySearch).Failure?;
  }

  /** The text generator's answer, failed or not, never changes the status
      of the response. */
  lemma GeneratorNeverDecidesStatus(codec: JsonCodec, up: Upstream, generator: HttpResponse, name: string)
    ensures StatusCode(Handle(codec, up, name)) == StatusCode(Handle(codec, up.(generator := generator), name))
  {
    if !IsBlank(name) {
      TimelineGeneratorOnlyAffectsTimeline(codec, Services(codec, up),
                                           Services(codec, up.(generator := generator)).generateTimeline, name);
      assert Services(codec, up).(generateTimeline := Services(codec, up.(generator := generator)).generateTimeline)
             == Services(codec, up.(generator := generator));
    }
  }
}

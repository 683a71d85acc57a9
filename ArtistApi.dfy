/** GET api/artist/analyze (Controllers/ArtistController.cs): the guard on the
    query parameter and the mapping of the pipeline's exceptions to HTTP
    statuses. */
module ArtistApi {
  import opened Wrappers
  import opened Faults
  import opened Json
  import opened Text
  import opened Analysis

  const InternalErrorMessage := "Ocurrió un error interno al analizar el artista."

  /** The action results Analyze can return. */
  datatype ActionResult =
    | Ok(analysis: ArtistAnalysis)
    | BadRequest(message: string)
    | NotFound(message: string)
    | InternalError(message: string)

  function StatusCode(a: ActionResult): (code: int)
    ensures code in {200, 400, 404, 500}
    ensures code == 200 <==> a.Ok?
  {
    match a
    case Ok(_) => 200
    case BadRequest(_) => 400
    case NotFound(_) => 404
    case InternalError(_) => 500
  }

  /** The try/catch of Analyze: KeyNotFoundException becomes 404 and
      ArgumentException 400, both with the exception's message; every other
      exception becomes 500 with a fixed message that reveals nothing of it. */
  function Respond(outcome: Result<ArtistAnalysis, Fault>): (a: ActionResult)
    ensures outcome.Success? <==> a.Ok?
    ensures outcome.Success? ==> a == Ok(outcome.value)
    ensures a.NotFound? <==> outcome.Failure? && outcome.error.KeyNotFound?
    ensures a.BadRequest? <==> outcome.Failure? && outcome.error.ArgumentError?
    ensures a.NotFound? || a.BadRequest? ==> a.message == outcome.error.message
    ensures a.InternalError? ==> a.message == InternalErrorMessage
  {
    match outcome
    case Success(result) => Ok(result)
    case Failure(KeyNotFound(m)) => NotFound(m)
    case Failure(ArgumentError(m)) => BadRequest(m)
    case Failure(_) => InternalError(InternalErrorMessage)
  }

  /** Analyze: a blank name is answered with 400 and the service is not
      called; otherwise the service's outcome is mapped. The second component
      is the collaborator calls the service made. */
  function Analyze(codec: JsonCodec, c: Collaborators, name: string): (r: (ActionResult, seq<Call>))
    ensures IsBlank(name) ==> r == (BadRequest(MissingNameMessage), [])
    ensures !IsBlank(name) ==> r.0 == Respond(AnalyzeArtist(codec, c, name).outcome)
    ensures !IsBlank(name) ==> r.1 == AnalyzeArtist(codec, c, name).calls
    ensures r.0.Ok? ==> r.0.analysis.artistName == name && r.1 == Pipeline
  {
    if IsBlank(name) then (BadRequest(MissingNameMessage), [])
    else
      var run := AnalyzeArtist(codec, c, name);
      (Respond(run.outcome), run.calls)
  }

  /** The service's own guard is never reached from the controller: the
      controller rejects a blank name with the same message before calling it. */
  lemma GuardsAgree(codec: JsonCodec, c: Collaborators, name: string)
    requires IsBlank(name)
    ensures Analyze(codec, c, name).0 == Respond(AnalyzeArtist(codec, c, name).outcome)
  {
  }
}

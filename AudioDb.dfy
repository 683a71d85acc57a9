/** The TheAudioDB lookups (Services/AudioDbService.cs): the first artist of a
    search response, its English biography, its thumbnail and the completeness
    score. The HTTP request is a parameter: the response it returned. */
module AudioDb {
  import opened Wrappers
  import opened Faults
  import opened Json
  import opened Text

  const EmptyNameMessage := "El nombre del artista no puede estar vacío."

  /** The three profile fields whose presence raises the score, in the order
      they are examined. */
  const ProfileKeys: seq<string> := ["intFormedYear", "strLabel", "strWebsite"]

  /** The score of an artist found with none of the profile fields, and of a
      search that found no artist. */
  const NoScore: nat := 0

  /** What GetArtistImageAndScore returns: the thumbnail URL (null when absent)
      and the score in hundredths. */
  datatype ImageAndScore = ImageAndScore(imageUrl: Option<string>, score: nat)

  /** The root is an object whose "artists" is a non-empty array. */
  predicate ListsArtists(root: Json) {
    root.JObject? && "artists" in root.fields
    && root.fields["artists"].JArray? && |root.fields["artists"].items| > 0
  }

  /** The first element of "artists". */
  function FirstListed(root: Json): Json
    requires ListsArtists(root)
  {
    root.fields["artists"].items[0]
  }

  /** `key` holds a value that GetString rejects: neither a string nor null. */
  predicate Malformed(fields: map<string, Json>, key: string) {
    key in fields && !(fields[key].JString? || fields[key].JNull?)
  }

  /** Reference reading of a response: the value under `key` in the first
      element of "artists", when the body is JSON, lists artists, the first of
      them is an object and it has that key. */
  function ArtistField(parsed: Option<Json>, key: string): Option<Json> {
    if parsed.Some? && ListsArtists(parsed.value) then
      var artist := parsed.value.fields["artists"].items[0];
      if artist.JObject? && key in artist.fields then Some(artist.fields[key]) else None
    else None
  }

  /** Parse the body and take artists[0]: Success(None) when "artists" is
      missing, not an array or empty; JsonException when the body is not JSON;
      InvalidOperationException when the root is not an object. */
  function FirstArtist(parse: string -> Option<Json>, body: string): (r: Result<Option<Json>, Fault>)
    ensures r.Failure? <==> parse(body).None? || !parse(body).value.JObject?
    ensures r.Failure? ==> r.error == (if parse(body).None? then JsonSyntax else InvalidOperation)
    ensures r.Success? ==> (r.value.Some? <==> ListsArtists(parse(body).value))
    ensures r.Success? && r.value.Some? ==> r.value.value == parse(body).value.fields["artists"].items[0]
  {
    match parse(body)
    case None => Failure(JsonSyntax)
    case Some(root) =>
      match TryGetProperty(root, "artists")
      case Failure(e) => Failure(e)
      case Success(None) => Success(None)
      case Success(Some(artists)) =>
        if !artists.JArray? || |artists.items| == 0 then Success(None)
        else Success(Some(artists.items[0]))
  }

  /** GetArtistBiography, given the response the search request returned. */
  function Biography(parse: string -> Option<Json>, artistName: string, response: HttpResponse)
    : (r: Result<Option<string>, Fault>)
    ensures IsBlank(artistName) ==> r == Failure(ArgumentError(EmptyNameMessage))
    ensures !IsBlank(artistName) && !IsSuccessStatusCode(response) ==> r == Failure(HttpFailure(response.status))
    ensures r.Success? ==> IsSuccessStatusCode(response) && parse(response.body).Some?
    ensures r.Success? && r.value.Some? ==>
              ArtistField(parse(response.body), "strBiographyEN") == Some(JString(r.value.value))
    ensures !IsBlank(artistName) && IsSuccessStatusCode(response)
            && ArtistField(parse(response.body), "strBiographyEN").Some?
            && ArtistField(parse(response.body), "strBiographyEN").value.JString?
            ==> r == Success(Some(ArtistField(parse(response.body), "strBiographyEN").value.text))
    ensures !IsBlank(artistName) && IsSuccessStatusCode(response) && parse(response.body).Some?
            && parse(response.body).value.JObject? && !ListsArtists(parse(response.body).value)
            ==> r == Success(None)
    // an artist without a biography, or with a null one, is found but has none
    ensures !IsBlank(artistName) && IsSuccessStatusCode(response) && parse(response.body).Some?
            && ListsArtists(parse(response.body).value)
            && FirstListed(parse(response.body).value).JObject?
            && ("strBiographyEN" !in FirstListed(parse(response.body).value).fields
                || FirstListed(parse(response.body).value).fields["strBiographyEN"].JNull?)
            ==> r == Success(None)
    // a successful response fails exactly when it is not JSON, its root is
    // not an object, or the first artist is not an object or has a biography
    // that is neither a string nor null
    ensures !IsBlank(artistName) && IsSuccessStatusCode(response) ==>
              (r.Failure? <==>
                 parse(response.body).None? || !parse(response.body).value.JObject?
                 || (ListsArtists(parse(response.body).value)
                     && (!FirstListed(parse(response.body).value).JObject?
                         || Malformed(FirstListed(parse(response.body).value).fields, "strBiographyEN"))))
    ensures r.Failure? && !IsBlank(artistName) ==>
              r.error.HttpFailure? || r.error == JsonSyntax || r.error == InvalidOperation
  {
    if IsBlank(artistName) then Failure(ArgumentError(EmptyNameMessage))
    else if !IsSuccessStatusCode(response) then Failure(HttpFailure(response.status))
    else
      match FirstArtist(parse, response.body)
      case Failure(e) => Failure(e)
      case Success(None) => Success(None)
      case Success(Some(artist)) =>
        match TryGetProperty(artist, "strBiographyEN")
        case Failure(e) => Failure(e)
        case Success(None) => Success(None)
        case Success(Some(bio)) => GetString(bio)
  }

  /** One profile field counts when it is present and GetString gives a text
      that is not null, empty or whitespace; a value that is neither a string
      nor null makes GetString throw. */
  function Filled(fields: map<string, Json>, key: string): (r: Result<bool, Fault>)
    ensures r.Failure? <==> key in fields && !(fields[key].JString? || fields[key].JNull?)
    ensures r == Success(true) <==> key in fields && fields[key].JString? && !IsBlank(fields[key].text)
  {
    if key !in fields then Success(false)
    else
      match GetString(fields[key])
      case Failure(e) => Failure(e)
      case Success(None) => Success(false)
      case Success(Some(t)) => Success(!IsBlank(t))
  }

  /** How many of `keys` are filled, examined from the first; the first
      malformed one aborts the count. */
  function Count(fields: map<string, Json>, keys: seq<string>): (r: Result<nat, Fault>)
    ensures r.Failure? <==> exists k :: 0 <= k < |keys| && Filled(fields, keys[k]).Failure?
    ensures r.Failure? ==> r.error == InvalidOperation
    ensures r.Success? ==> r.value <= |keys|
    ensures r.Success? ==> (r.value == |keys| <==> forall k :: 0 <= k < |keys| ==> Filled(fields, keys[k]) == Success(true))
    ensures r.Success? ==> (r.value == 0 <==> forall k :: 0 <= k < |keys| ==> Filled(fields, keys[k]) == Success(false))
  {
    if keys == [] then Success(0)
    else
      match Filled(fields, keys[0])
      case Failure(e) => Failure(e)
      case Success(b) =>
        match Count(fields, keys[1..])
        case Failure(e) => Failure(e)
        case Success(n) => Success(n + if b then 1 else 0)
  }

  /** The weight of an artist: how many of the three profile fields it fills. */
  function Weight(fields: map<string, Json>): Result<nat, Fault> {
    Count(fields, ProfileKeys)
  }

  /** Math.Round(weight / 3.0, 2) in hundredths: the hundredth nearest to
      weight / 3 (no midpoint arises, since 100 * weight / 3 is never a half). */
  function Score(weight: nat): (h: nat)
    ensures -3 < 6 * h - 200 * weight <= 3
  {
    (200 * weight + 3) / 6
  }

  /** GetArtistImageAndScore, as a value of the response: what the method
      below computes. */
  function ImageAndScoreOf(parse: string -> Option<Json>, artistName: string, response: HttpResponse)
    : (r: Result<ImageAndScore, Fault>)
    ensures IsBlank(artistName) ==> r == Failure(ArgumentError(EmptyNameMessage))
    ensures !IsBlank(artistName) && !IsSuccessStatusCode(response) ==> r == Failure(HttpFailure(response.status))
    ensures r.Success? ==> IsSuccessStatusCode(response) && parse(response.body).Some?
    ensures r.Success? && r.value.imageUrl.Some? ==>
              ArtistField(parse(response.body), "strArtistThumb") == Some(JString(r.value.imageUrl.value))
    ensures r.Success? && !ListsArtists(parse(response.body).value) ==> r.value == ImageAndScore(None, NoScore)
    ensures r.Success? ==> r.value.score in {0, 33, 67, 100}
    // a listed first artist gives its thumbnail (null when absent or null)
    // and the score of its weight
    ensures r.Success? && ListsArtists(parse(response.body).value) ==>
              var artist := FirstListed(parse(response.body).value);
              && artist.JObject? && Weight(artist.fields).Success?
              && r.value.score == Score(Weight(artist.fields).value)
              && r.value.imageUrl ==
                   (if "strArtistThumb" in artist.fields && artist.fields["strArtistThumb"].JString?
                    then Some(artist.fields["strArtistThumb"].text) else None)
    // a successful response fails exactly when it is not JSON, its root is
    // not an object, or the first artist is not an object, has a thumbnail
    // that is neither a string nor null, or has a malformed profile field
    ensures !IsBlank(artistName) && IsSuccessStatusCode(response) ==>
              (r.Failure? <==>
                 parse(response.body).None? || !parse(response.body).value.JObject?
                 || (ListsArtists(parse(response.body).value)
                     && (!FirstListed(parse(response.body).value).JObject?
                         || Malformed(FirstListed(parse(response.body).value).fields, "strArtistThumb")
                         || Weight(FirstListed(parse(response.body).value).fields).Failure?)))
    ensures r.Failure? && !IsBlank(artistName) ==>
              r.error.HttpFailure? || r.error == JsonSyntax || r.error == InvalidOperation
  {
    if IsBlank(artistName) then Failure(ArgumentError(EmptyNameMessage))
    else if !IsSuccessStatusCode(response) then Failure(HttpFailure(response.status))
    else
      match FirstArtist(parse, response.body)
      case Failure(e) => Failure(e)
      case Success(None) => Success(ImageAndScore(None, NoScore))
      case Success(Some(artist)) =>
        if !artist.JObject? then Failure(InvalidOperation)
        else
          var thumb := if "strArtistThumb" in artist.fields then GetString(artist.fields["strArtistThumb"]) else Success(None);
          if thumb.Failure? then Failure(thumb.error)
          else
            match Weight(artist.fields)
            case Failure(e) => Failure(e)
            case Success(w) => Success(ImageAndScore(thumb.value, Score(w)))
  }

  /** GetArtistImageAndScore: find the first artist, read its thumbnail, then
      count the profile fields one `if` at a time and round weight / 3. */
  method GetArtistImageAndScore(parse: string -> Option<Json>, artistName: string, response: HttpResponse)
    returns (r: Result<ImageAndScore, Fault>)
    ensures r == ImageAndScoreOf(parse, artistName, response)
  {
    if IsBlank(artistName) {
      return Failure(ArgumentError(EmptyNameMessage));
    }
    if !IsSuccessStatusCode(response) {
      return Failure(HttpFailure(response.status));
    }
    var first := FirstArtist(parse, response.body);
    if first.Failure? {
      return Failure(first.error);
    }
    if first.value.None? {
      return Success(ImageAndScore(None, NoScore));
    }
    var artist := first.value.value;
    var imageUrl: Option<string> := None;
    var thumb := TryGetProperty(artist, "strArtistThumb");
    if thumb.Failure? {
      return Failure(thumb.error);
    }
    if thumb.value.Some? {
      var text := GetString(thumb.value.value);
      if text.Failure? {
        return Failure(text.error);
      }
      imageUrl := text.value;
    }
    var weight: nat := 0;
    var year := Filled(artist.fields, ProfileKeys[0]);
    if year.Failure? {
      return Failure(year.error);
    }
    if year.value {
      weight := weight + 1;
    }
    var recordLabel := Filled(artist.fields, ProfileKeys[1]);
    if recordLabel.Failure? {
      return Failure(recordLabel.error);
    }
    if recordLabel.value {
      weight := weight + 1;
    }
    var site := Filled(artist.fields, ProfileKeys[2]);
    if site.Failure? {
      return Failure(site.error);
    }
    if site.value {
      weight := weight + 1;
    }
    WeightSteps(artist.fields);
    r := Success(ImageAndScore(imageUrl, Score(weight)));
  }

  /** The weight is the three profile tests added up in order, the first
      malformed field ending it with its error. */
  lemma WeightSteps(fields: map<string, Json>)
    ensures Weight(fields) ==
      match (Filled(fields, ProfileKeys[0]), Filled(fields, ProfileKeys[1]), Filled(fields, ProfileKeys[2]))
      case (Failure(e), _, _) => Failure(e)
      case (Success(_), Failure(e), _) => Failure(e)
      case (Success(_), Success(_), Failure(e)) => Failure(e)
      case (Success(a), Success(b), Success(c)) =>
        Success((if a then 1 else 0) + (if b then 1 else 0) + (if c then 1 else 0))
  {
    assert ProfileKeys[1..][1..][1..] == [];
  }

  /** The score takes only the values 0, 0.33, 0.67 and 1, at most 1. */
  lemma ScoreValues(weight: nat)
    requires weight <= |ProfileKeys|
    ensures Score(weight) <= 100
    ensures Score(weight) == [0, 33, 67, 100][weight]
  {
  }

  /** More filled fields never lower the score. */
  lemma ScoreMonotone(w1: nat, w2: nat)
    requires w1 <= w2
    ensures Score(w1) <= Score(w2)
  {
  }

  /** Only the first element of "artists" is consulted: two responses whose
      first artists agree give the same biography and the same image and score. */
  lemma OnlyFirstArtistMatters(parse: string -> Option<Json>, artistName: string,
                               response1: HttpResponse, response2: HttpResponse)
    requires response1.status == response2.status
    requires parse(response1.body).Some? && parse(response2.body).Some?
    requires ListsArtists(parse(response1.body).value) && ListsArtists(parse(response2.body).value)
    requires parse(response1.body).value.fields["artists"].items[0] == parse(response2.body).value.fields["artists"].items[0]
    ensures Biography(parse, artistName, response1) == Biography(parse, artistName, response2)
    ensures ImageAndScoreOf(parse, artistName, response1) == ImageAndScoreOf(parse, artistName, response2)
  {
  }
}

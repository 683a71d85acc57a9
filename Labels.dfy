/** Choosing the classifier's best label (AnalysisService.ExtractBestLabel) and
    turning it into the Spanish label shown to users (TranslateClassification). */
module Labels {
  import opened Wrappers
  import opened Json

  const UnknownLabel := "Unknown"
  const Undetermined := "No determinada"

  /** The seven labels the zero-shot classifier is asked to choose among. */
  const CandidateLabels: seq<string> := [
    "Tragic life", "Controversial figure", "Influential artist", "Commercial superstar",
    "Short-lived career", "Underground icon", "Successful career"]

  /** Their Spanish names, position by position. */
  const SpanishLabels: seq<string> := [
    "Vida trágica", "Figura controversial", "Artista influyente", "Superestrella comercial",
    "Carrera de corta duración", "Ícono underground", "Carrera exitosa"]

  /** Where a scan that starts from maxScore = 0 and bestIndex = 0 and moves on
      only for a strictly greater score ends: at the first index whose score is
      positive, above every earlier score and not below any later one, or at 0
      when no score is positive. */
  predicate IsBestIndex(scores: seq<real>, b: nat) {
    (b == 0 && forall k :: 0 <= k < |scores| ==> scores[k] <= 0.0)
    || (b < |scores| && scores[b] > 0.0
        && (forall k :: 0 <= k < b ==> scores[k] < scores[b])
        && (forall k :: b < k < |scores| ==> scores[k] <= scores[b]))
  }

  /** The highest score, or 0 when no score is positive. */
  function MaxScore(scores: seq<real>): (m: real)
    ensures m >= 0.0
    ensures forall k :: 0 <= k < |scores| ==> scores[k] <= m
  {
    if scores == [] then 0.0
    else
      var m := MaxScore(scores[..|scores| - 1]);
      if scores[|scores| - 1] > m then scores[|scores| - 1] else m
  }

  /** The index the scan settles on. */
  function ArgMax(scores: seq<real>): (b: nat)
    ensures IsBestIndex(scores, b)
    ensures MaxScore(scores) > 0.0 ==> b < |scores| && scores[b] == MaxScore(scores)
  {
    if scores == [] then 0
    else if scores[|scores| - 1] > MaxScore(scores[..|scores| - 1]) then |scores| - 1
    else ArgMax(scores[..|scores| - 1])
  }

  /** The characterisation pins the index down: at most one index satisfies it. */
  lemma BestIndexUnique(scores: seq<real>, b1: nat, b2: nat)
    requires IsBestIndex(scores, b1) && IsBestIndex(scores, b2)
    ensures b1 == b2
  {
  }

  /** The scores as numbers, or None when one of them is not a JSON number
      (JsonElement.GetDouble throws for it). */
  function Numbers(items: seq<Json>): (r: Option<seq<real>>)
    ensures r.None? <==> exists k :: 0 <= k < |items| && !items[k].JNumber?
    ensures r.Some? ==> |r.value| == |items| && forall k :: 0 <= k < |items| ==> r.value[k] == items[k].num
  {
    if items == [] then Some([])
    else
      var init := Numbers(items[..|items| - 1]);
      var last := items[|items| - 1];
      if init.Some? && last.JNumber? then Some(init.value + [last.num])
      else None
  }

  /** What ExtractBestLabel returns for a parsed response (None: not JSON):
      the label at the best score's index, and "Unknown" on every path where
      the source throws or finds no usable labels and scores. */
  function BestLabel(parsed: Option<Json>): (r: string)
    ensures r != UnknownLabel ==> IsOfferedLabel(parsed, r)
  {
    match parsed
    case None => UnknownLabel
    case Some(root) =>
      if !root.JObject? || "labels" !in root.fields || "scores" !in root.fields then UnknownLabel
      else
        var labels := root.fields["labels"];
        var scores := root.fields["scores"];
        if !labels.JArray? || |labels.items| == 0 || !scores.JArray? then UnknownLabel
        else
          match Numbers(scores.items)
          case None => UnknownLabel
          case Some(xs) =>
            var b := ArgMax(xs);
            if b >= |labels.items| then UnknownLabel
            else
              match GetString(labels.items[b])
              case Success(Some(name)) => name
              case _ => UnknownLabel
  }

  /** `name` is the text of one of the entries of the "labels" array. */
  predicate IsOfferedLabel(parsed: Option<Json>, name: string) {
    parsed.Some? && parsed.value.JObject? && "labels" in parsed.value.fields
    && parsed.value.fields["labels"].JArray? && JString(name) in parsed.value.fields["labels"].items
  }

  /** ExtractBestLabel: parse the classifier's answer, scan the scores for the
      highest one and return the label at that index. Every exception the
      source would raise is caught there and becomes "Unknown". */
  method ExtractBestLabel(parse: string -> Option<Json>, aiResult: string) returns (best: string)
    ensures best == BestLabel(parse(aiResult))
  {
    best := UnknownLabel;
    var parsed := parse(aiResult);
    if parsed.None? {
      return;
    }
    var root := parsed.value;
    if !root.JObject? || "labels" !in root.fields || "scores" !in root.fields {
      return;
    }
    var labels := root.fields["labels"];
    var scores := root.fields["scores"];
    if !labels.JArray? || |labels.items| == 0 || !scores.JArray? {
      return;
    }
    var maxScore: real := 0.0;
    var bestIndex: nat := 0;
    var i := 0;
    while i < |scores.items|
      invariant 0 <= i <= |scores.items|
      invariant Numbers(scores.items[..i]).Some?
      invariant maxScore == MaxScore(Numbers(scores.items[..i]).value)
      invariant bestIndex == ArgMax(Numbers(scores.items[..i]).value)
    {
      var item := scores.items[i];
      if !item.JNumber? {
        assert Numbers(scores.items).None?;
        return;
      }
      ScanStep(scores.items, i);
      var score := item.num;
      if score > maxScore {
        maxScore := score;
        bestIndex := i;
      }
      i := i + 1;
    }
    assert scores.items[..i] == scores.items;
    if bestIndex < |labels.items| {
      var text := GetString(labels.items[bestIndex]);
      if text.Success? && text.value.Some? {
        best := text.value.value;
      }
    }
  }

  /** One step of the scan: a number appended to the seen scores moves the
      best index to it exactly when it beats the running maximum. */
  lemma ScanStep(items: seq<Json>, i: nat)
    requires i < |items| && Numbers(items[..i]).Some? && items[i].JNumber?
    ensures var seen := Numbers(items[..i]).value;
            var next := Numbers(items[..i + 1]);
            next == Some(seen + [items[i].num])
            && MaxScore(next.value) == (if items[i].num > MaxScore(seen) then items[i].num else MaxScore(seen))
            && ArgMax(next.value) == (if items[i].num > MaxScore(seen) then i else ArgMax(seen))
  {
    var seen := Numbers(items[..i]).value;
    assert items[..i + 1][..i] == items[..i];
    assert (seen + [items[i].num])[..i] == seen;
  }

  /** The label returned is the one at the unique best index of the scores,
      when labels and scores are arrays, labels is not empty, every score is a
      number and that index holds a string label. */
  lemma BestLabelPicksBestIndex(root: map<string, Json>, ls: seq<Json>, xs: seq<Json>, b: nat)
    requires "labels" in root && "scores" in root
    requires root["labels"] == JArray(ls) && root["scores"] == JArray(xs) && |ls| > 0
    requires Numbers(xs).Some? && IsBestIndex(Numbers(xs).value, b)
    ensures b < |ls| && ls[b].JString? ==> BestLabel(Some(JObject(root))) == ls[b].text
    ensures b >= |ls| ==> BestLabel(Some(JObject(root))) == UnknownLabel
  {
    BestIndexUnique(Numbers(xs).value, b, ArgMax(Numbers(xs).value));
  }

  /** With no positive score the first label is chosen. */
  lemma NoPositiveScorePicksFirstLabel(root: map<string, Json>, ls: seq<Json>, xs: seq<Json>)
    requires "labels" in root && "scores" in root
    requires root["labels"] == JArray(ls) && root["scores"] == JArray(xs) && |ls| > 0
    requires forall k :: 0 <= k < |xs| ==> xs[k].JNumber? && xs[k].num <= 0.0
    requires ls[0].JString?
    ensures BestLabel(Some(JObject(root))) == ls[0].text
  {
    var ns := Numbers(xs).value;
    assert IsBestIndex(ns, 0);
    BestLabelPicksBestIndex(root, ls, xs, 0);
  }

  /** The cases that yield "Unknown": no JSON, labels or scores missing, labels
      empty, scores that are not an array, or a score that is not a number. */
  lemma UnknownCases(parsed: Option<Json>)
    ensures parsed.None? ==> BestLabel(parsed) == UnknownLabel
    ensures parsed.Some? && parsed.value.JObject?
            && ("labels" !in parsed.value.fields || "scores" !in parsed.value.fields)
            ==> BestLabel(parsed) == UnknownLabel
    ensures parsed.Some? && parsed.value.JObject? && "labels" in parsed.value.fields
            && parsed.value.fields["labels"] == JArray([])
            ==> BestLabel(parsed) == UnknownLabel
    ensures parsed.Some? && parsed.value.JObject? && "scores" in parsed.value.fields
            && parsed.value.fields["scores"].JArray?
            && (exists k :: 0 <= k < |parsed.value.fields["scores"].items|
                            && !parsed.value.fields["scores"].items[k].JNumber?)
            ==> BestLabel(parsed) == UnknownLabel
    ensures parsed.Some? && parsed.value.JObject? && "scores" in parsed.value.fields
            && !parsed.value.fields["scores"].JArray?
            ==> BestLabel(parsed) == UnknownLabel
  {
  }

  /** A label at the best index that is not a string also yields "Unknown":
      a null one through the `??` fallback, any other kind through the catch
      of GetString's exception. */
  lemma NonStringLabelIsUnknown(root: map<string, Json>, ls: seq<Json>, xs: seq<Json>, b: nat)
    requires "labels" in root && "scores" in root
    requires root["labels"] == JArray(ls) && root["scores"] == JArray(xs) && |ls| > 0
    requires Numbers(xs).Some? && IsBestIndex(Numbers(xs).value, b) && b < |ls| && !ls[b].JString?
    ensures BestLabel(Some(JObject(root))) == UnknownLabel
  {
    BestIndexUnique(Numbers(xs).value, b, ArgMax(Numbers(xs).value));
  }

  /** TranslateClassification: the fixed English-to-Spanish table. Each
      candidate label gets the Spanish name at its own position, and every
      other text, "Unknown" and case variants included, is "No determinada". */
  function Translate(name: string): (spanish: string)
    ensures forall k :: 0 <= k < |CandidateLabels| && name == CandidateLabels[k] ==> spanish == SpanishLabels[k]
    ensures spanish == Undetermined <==> name !in CandidateLabels
  {
    match name
    case "Tragic life" => "Vida trágica"
    case "Controversial figure" => "Figura controversial"
    case "Influential artist" => "Artista influyente"
    case "Commercial superstar" => "Superestrella comercial"
    case "Short-lived career" => "Carrera de corta duración"
    case "Underground icon" => "Ícono underground"
    case "Successful career" => "Carrera exitosa"
    case _ => Undetermined
  }

  /** Different candidates never share a Spanish name. */
  lemma TranslateInjective(a: string, b: string)
    requires a in CandidateLabels && b in CandidateLabels && a != b
    ensures Translate(a) != Translate(b)
  {
  }
}

/** How the server's output meets the browser's code: the property names of
    the heuristic timeline, the CSS classes of the Spanish labels, and the
    profile bands of the completeness score. */
module CrossChecks {
  import opened Wrappers
  import opened Json
  import opened Text
  import opened Heuristic
  import opened Labels
  import opened AudioDb
  import opened ClientApp

  /** The property names renderTimeline reads from each item. */
  const ClientKeys: set<string> := {"year", "event", "details"}

  /** The heuristic timeline is serialised with the default options, so its
      items carry "Year", "Event" and "Details", none of the names the
      browser reads: an item of the fallback timeline shows no year, title
      or details, while every item of the browser's own timeline has all three. */
  lemma ServerTimelineKeysMissTheClient(events: seq<TimelineEvent>, items: seq<ClientEvent>)
    ensures forall k :: 0 <= k < |events| ==>
              TimelineJson(events).items[k].JObject? && TimelineJson(events).items[k].fields.Keys !! ClientKeys
    ensures forall k :: 0 <= k < |items| ==> ClientKeys <= ClientTimelineJson(items).items[k].fields.Keys
  {
  }

  /** A text lacking some character of `t` does not contain `t`. */
  lemma MissingCharacterRulesOut(s: string, t: string, c: char)
    requires c in t && c !in s
    ensures !Contains(s, t)
  {
  }

  /** No character of `s` is one of `letters`. */
  predicate Avoids(s: string, letters: string) {
    forall i :: 0 <= i < |s| ==> s[i] !in letters
  }

  /** The capital of a lower-case ASCII letter. */
  function Capital(c: char): (u: char)
    requires 'a' <= c <= 'z'
    ensures 'A' <= u <= 'Z' && LowerAscii(u) == c
  {
    (c as int - 32) as char
  }

  /** Lower-casing a text that has neither a letter nor its capital does not
      produce that letter. */
  lemma {:induction false} LowerAvoids(s: string, letters: string, c: char)
    requires 'a' <= c <= 'z' && c in letters && Capital(c) in letters && Avoids(s, letters)
    ensures c !in ToLowerAscii(s)
  {
    var lower := ToLowerAscii(s);
    forall i | 0 <= i < |s|
      ensures lower[i] != c
    {
      assert s[i] != c && s[i] != Capital(c);
    }
  }

  /** Letters whose absence rules out the rarer classes: one letter of each
      of "emergente", "leyenda" and "independiente", and `letters` holding
      both cases of them and of 'x'. */
  datatype Giveaway = Giveaway(rising: char, legend: char, indie: char, letters: string)

  predicate RulesOutRareClasses(g: Giveaway) {
    && 'a' <= g.rising <= 'z' && 'a' <= g.legend <= 'z' && 'a' <= g.indie <= 'z'
    && g.rising in "emergente" && g.legend in "leyenda" && g.indie in "independiente"
    && 'x' in g.letters && 'X' in g.letters
    && g.rising in g.letters && Capital(g.rising) in g.letters
    && g.legend in g.letters && Capital(g.legend) in g.letters
    && g.indie in g.letters && Capital(g.indie) in g.letters
  }

  /** A label that avoids the letters of a giveaway gets the default class:
      "Vida trágica", "Figura controversial" and "Ícono underground" avoid
      x, m, y and p, "Artista influyente" avoids x, m, d and p, "Superestrella
      comercial" x, g, y and d, "Carrera de corta duración" and "No
      determinada" x, g, y and p. */
  lemma {:induction false} DefaultClassWhenLettersMissing(s: string, g: Giveaway)
    requires s != "" && RulesOutRareClasses(g) && Avoids(s, g.letters)
    ensures ClassificationClass(s) == DefaultClass
  {
    var lower := ToLowerAscii(s);
    LowerAvoids(s, g.letters, 'x');
    LowerAvoids(s, g.letters, g.rising);
    LowerAvoids(s, g.letters, g.legend);
    LowerAvoids(s, g.letters, g.indie);
    MissingCharacterRulesOut(lower, "exitosa", 'x');
    MissingCharacterRulesOut(lower, "emergente", g.rising);
    MissingCharacterRulesOut(lower, "leyenda", g.legend);
    MissingCharacterRulesOut(lower, "independiente", g.indie);
  }

  /** The translation of "Successful career" is shown with the success class. */
  lemma SuccessClassForSuccessfulCareer()
    ensures Translate("Successful career") == "Carrera exitosa"
    ensures ClassificationClass("Carrera exitosa") == "class-success"
  {
    var lower := ToLowerAscii("Carrera exitosa");
    assert lower[8..15] == "exitosa";
    assert OccursAt(lower, "exitosa", 8);
  }

  /** The four possible scores fall in four different profile bands: the
      browser shows "Información limitada", "Perfil básico", "Perfil
      detallado" and "Perfil completo" for weights 0 to 3. */
  lemma ScoreBands(weight: nat)
    requires weight <= |ProfileKeys|
    ensures BandOf(Score(weight) as real / 100.0) == [Limited, Basic, Detailed, Complete][weight]
  {
    ScoreValues(weight);
  }
}

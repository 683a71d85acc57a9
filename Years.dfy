/** The two year searches: the server's regular expression \b(19|20)\d{2}\b
    and the browser's (19|20)\d{2}, both as an explicit leftmost scan over
    ASCII digits. */
module Years {
  import opened Wrappers
  import opened Text

  /** (19|20)\d{2} matches at position `i` of `s`. */
  predicate YearDigitsAt(s: string, i: int) {
    0 <= i && i + 4 <= |s|
    && ((s[i] == '1' && s[i + 1] == '9') || (s[i] == '2' && s[i + 1] == '0'))
    && IsAsciiDigit(s[i + 2]) && IsAsciiDigit(s[i + 3])
  }

  /** \b(19|20)\d{2}\b matches at `i`: the four digits are preceded and
      followed by a non-word character or by an end of the text. */
  predicate BoundedYearAt(s: string, i: int) {
    YearDigitsAt(s, i)
    && (i == 0 || !IsAsciiWordChar(s[i - 1]))
    && (i + 4 == |s| || !IsAsciiWordChar(s[i + 4]))
  }

  predicate YearAt(s: string, i: int, wordBounded: bool) {
    if wordBounded then BoundedYearAt(s, i) else YearDigitsAt(s, i)
  }

  /** The leftmost match at or after `from`, as Regex.Match and
      String.prototype.match report it. */
  function FirstYearFrom(s: string, wordBounded: bool, from: nat): (r: Option<nat>)
    ensures r.Some? ==> from <= r.value && YearAt(s, r.value, wordBounded)
    ensures r.Some? ==> forall j :: from <= j < r.value ==> !YearAt(s, j, wordBounded)
    ensures r.None? <==> forall j :: from <= j ==> !YearAt(s, j, wordBounded)
    decreases |s| - from
  {
    if from + 4 > |s| then None
    else if YearAt(s, from, wordBounded) then Some(from)
    else FirstYearFrom(s, wordBounded, from + 1)
  }

  /** The matched year text, if any: the four characters of the leftmost
      match, and null exactly when nothing matches. */
  function YearMatch(s: string, wordBounded: bool): (r: Option<string>)
    ensures r.Some? ==> |r.value| == 4 && (r.value[..2] == "19" || r.value[..2] == "20")
    ensures r.None? <==> forall i :: !YearAt(s, i, wordBounded)
    ensures r.Some? ==> exists i :: YearAt(s, i, wordBounded) && r.value == s[i..i + 4]
                                    && forall j :: 0 <= j < i ==> !YearAt(s, j, wordBounded)
  {
    match FirstYearFrom(s, wordBounded, 0)
    case Some(i) =>
      assert YearAt(s, i, wordBounded);
      Some(s[i..i + 4])
    case None =>
      assert forall i :: YearAt(s, i, wordBounded) ==> 0 <= i;
      None
  }

  /** Every word-bounded match is also a plain match, so the browser's search
      stops at or before the position where the server's search stops, and
      finds a year whenever the server does. */
  lemma BrowserYearNoLaterThanServer(s: string)
    ensures FirstYearFrom(s, true, 0).Some? ==> FirstYearFrom(s, false, 0).Some?
    ensures FirstYearFrom(s, true, 0).Some? ==>
              FirstYearFrom(s, false, 0).value <= FirstYearFrom(s, true, 0).value
  {
    var server := FirstYearFrom(s, true, 0);
    if server.Some? {
      assert YearAt(s, server.value, false);
    }
  }

  /** A year glued to a letter or a digit is found by the browser but not by
      the server: "in1990" yields a year only in the browser. */
  lemma BoundaryMatters()
    ensures FirstYearFrom("in1990", false, 0) == Some(2)
    ensures FirstYearFrom("in1990", true, 0) == None
  {
    var s := "in1990";
    assert !YearAt(s, 0, false) && !YearAt(s, 1, false) && YearAt(s, 2, false);
    assert !YearAt(s, 0, true) && !YearAt(s, 1, true) && !YearAt(s, 2, true);
  }
}

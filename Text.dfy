/** Character classes and the string operations of the .NET and JavaScript
    runtimes that the pipeline relies on (Trim, IsNullOrWhiteSpace, IndexOf,
    Split, includes, toLowerCase, replace). */
module Text {

  /** The two runtimes, whose notions of white space differ. */
  datatype Platform = DotNet | JavaScript

  /** char.IsWhiteSpace in .NET: the Unicode separators plus U+0009-U+000D and U+0085. */
  predicate IsDotNetWhiteSpace(c: char) {
    ('\t' <= c <= '\r') || c == ' ' || c == '\U{85}' || c == '\U{A0}' || c == '\U{1680}'
    || ('\U{2000}' <= c <= '\U{200A}') || c == '\U{2028}' || c == '\U{2029}'
    || c == '\U{202F}' || c == '\U{205F}' || c == '\U{3000}'
  }

  /** WhiteSpace and LineTerminator of ECMAScript, which String.prototype.trim removes:
      unlike .NET it includes U+FEFF and excludes U+0085. */
  predicate IsJsWhiteSpace(c: char) {
    ('\t' <= c <= '\r') || c == ' ' || c == '\U{A0}' || c == '\U{1680}'
    || ('\U{2000}' <= c <= '\U{200A}') || c == '\U{2028}' || c == '\U{2029}'
    || c == '\U{202F}' || c == '\U{205F}' || c == '\U{3000}' || c == '\U{FEFF}'
  }

  predicate IsWhiteSpace(p: Platform, c: char) {
    match p
    case DotNet => IsDotNetWhiteSpace(c)
    case JavaScript => IsJsWhiteSpace(c)
  }

  /** string.IsNullOrWhiteSpace of a string that is not null. */
  predicate IsBlank(s: string) {
    forall i :: 0 <= i < |s| ==> IsDotNetWhiteSpace(s[i])
  }

  /** \d of an ECMAScript regular expression; the .NET one is restricted to it here. */
  predicate IsAsciiDigit(c: char) {
    '0' <= c <= '9'
  }

  /** A word character for \b, restricted to ASCII. */
  predicate IsAsciiWordChar(c: char) {
    ('a' <= c <= 'z') || ('A' <= c <= 'Z') || IsAsciiDigit(c) || c == '_'
  }

  /** TrimStart: drops the leading white space. */
  function TrimStart(p: Platform, s: string): (r: string)
    ensures |r| <= |s| && r == s[|s| - |r|..]
    ensures r != [] ==> !IsWhiteSpace(p, r[0])
  {
    if s != [] && IsWhiteSpace(p, s[0]) then TrimStart(p, s[1..]) else s
  }

  /** TrimEnd: drops the trailing white space. */
  function TrimEnd(p: Platform, s: string): (r: string)
    ensures |r| <= |s| && r == s[..|r|]
    ensures r != [] ==> !IsWhiteSpace(p, r[|r| - 1])
  {
    if s != [] && IsWhiteSpace(p, s[|s| - 1]) then TrimEnd(p, s[..|s| - 1]) else s
  }

  /** string.Trim / String.prototype.trim. */
  function Trim(p: Platform, s: string): (r: string)
    ensures |r| <= |s|
    ensures r != [] ==> !IsWhiteSpace(p, r[0]) && !IsWhiteSpace(p, r[|r| - 1])
  {
    TrimEnd(p, TrimStart(p, s))
  }

  lemma {:induction false} TrimStartDropsOnlyWhiteSpace(p: Platform, s: string)
    ensures forall i :: 0 <= i < |s| - |TrimStart(p, s)| ==> IsWhiteSpace(p, s[i])
  {
    if s != [] && IsWhiteSpace(p, s[0]) {
      TrimStartDropsOnlyWhiteSpace(p, s[1..]);
      forall i | 0 < i < |s| - |TrimStart(p, s)| ensures IsWhiteSpace(p, s[i]) {
        assert s[i] == s[1..][i - 1];
      }
    }
  }

  /** `c` is the first character of `s` that is not .NET white space. */
  predicate FirstNonWhiteIs(s: string, c: char) {
    exists i :: 0 <= i < |s| && s[i] == c && forall j :: 0 <= j < i ==> IsDotNetWhiteSpace(s[j])
  }

  /** TrimStart().StartsWith(c) holds exactly when `c`, not itself white
      space, is the first character that is not white space. */
  lemma {:induction false} TrimStartStartsWith(s: string, c: char)
    requires !IsDotNetWhiteSpace(c)
    ensures StartsWith(TrimStart(DotNet, s), [c]) <==> FirstNonWhiteIs(s, c)
  {
    TrimStartDropsOnlyWhiteSpace(DotNet, s);
    var r := TrimStart(DotNet, s);
    var m := |s| - |r|;
    if StartsWith(r, [c]) {
      assert s[m] == r[0];
      assert forall j :: 0 <= j < m ==> IsDotNetWhiteSpace(s[j]);
    }
    if FirstNonWhiteIs(s, c) {
      var i :| 0 <= i < |s| && s[i] == c && forall j :: 0 <= j < i ==> IsDotNetWhiteSpace(s[j]);
      assert m <= i;
      assert |r| > 0 ==> s[m] == r[0];
      assert m >= i;
      assert r[0] == s[i];
      assert r[..1] == [c];
    }
  }

  lemma {:induction false} TrimEndDropsOnlyWhiteSpace(p: Platform, s: string)
    ensures forall i :: |TrimEnd(p, s)| <= i < |s| ==> IsWhiteSpace(p, s[i])
  {
    if s != [] && IsWhiteSpace(p, s[|s| - 1]) {
      TrimEndDropsOnlyWhiteSpace(p, s[..|s| - 1]);
      forall i | |TrimEnd(p, s)| <= i < |s| - 1 ensures IsWhiteSpace(p, s[i]) {
        assert s[i] == s[..|s| - 1][i];
      }
    }
  }

  lemma {:induction false} TrimIsMiddleSlice(p: Platform, s: string)
    ensures var a := |s| - |TrimStart(p, s)|;
            a + |Trim(p, s)| <= |s| && Trim(p, s) == s[a..a + |Trim(p, s)|]
  {
    PrefixOfSuffix(s, TrimStart(p, s), Trim(p, s), |s| - |TrimStart(p, s)|);
  }

  /** A prefix of a suffix of `s` is a slice of `s`. */
  lemma PrefixOfSuffix(s: string, front: string, r: string, a: int)
    requires a == |s| - |front| && 0 <= a && front == s[a..]
    requires |r| <= |front| && r == front[..|r|]
    ensures a + |r| <= |s| && r == s[a..a + |r|]
  {
  }

  lemma {:induction false} TrimDropsOnlyTrailingWhiteSpace(p: Platform, s: string)
    ensures var a := |s| - |TrimStart(p, s)|;
            forall i :: a + |Trim(p, s)| <= i < |s| ==> IsWhiteSpace(p, s[i])
  {
    var front := TrimStart(p, s);
    var a := |s| - |front|;
    TrimEndDropsOnlyWhiteSpace(p, front);
    forall i | a + |Trim(p, s)| <= i < |s| ensures IsWhiteSpace(p, s[i]) {
      assert s[i] == front[i - a];
    }
  }

  /** Trim removes white space from both ends and nothing else: the result is
      the slice of `s` between a white-space prefix and a white-space suffix. */
  lemma TrimIsSliceBetweenWhiteSpace(p: Platform, s: string)
    ensures var r := Trim(p, s);
            var a := |s| - |TrimStart(p, s)|;
            a + |r| <= |s| && r == s[a..a + |r|]
            && (forall i :: 0 <= i < a ==> IsWhiteSpace(p, s[i]))
            && (forall i :: a + |r| <= i < |s| ==> IsWhiteSpace(p, s[i]))
  {
    TrimIsMiddleSlice(p, s);
    TrimStartDropsOnlyWhiteSpace(p, s);
    TrimDropsOnlyTrailingWhiteSpace(p, s);
  }

  /** Trim yields the empty string exactly when `s` is all white space. */
  lemma TrimEmptyIffBlank(p: Platform, s: string)
    ensures Trim(p, s) == [] <==> forall i :: 0 <= i < |s| ==> IsWhiteSpace(p, s[i])
  {
    var front := TrimStart(p, s);
    TrimIsSliceBetweenWhiteSpace(p, s);
    TrimEndDropsOnlyWhiteSpace(p, front);
    assert Trim(p, s) == [] ==> front == [] by {
      if front != [] {
        assert !IsWhiteSpace(p, front[0]);
      }
    }
  }

  /** Ordinal string.StartsWith. */
  predicate StartsWith(s: string, prefix: string) {
    |prefix| <= |s| && s[..|prefix|] == prefix
  }

  /** string.IndexOf(char): the first position of `c`, or -1. */
  function IndexOf(s: string, c: char): (r: int)
    ensures -1 <= r < |s|
    ensures r >= 0 ==> s[r] == c && forall i :: 0 <= i < r ==> s[i] != c
    ensures r == -1 <==> forall i :: 0 <= i < |s| ==> s[i] != c
  {
    if s == [] then -1
    else if s[0] == c then 0
    else
      var k := IndexOf(s[1..], c);
      if k < 0 then -1 else k + 1
  }

  /** string.LastIndexOf(char): the last position of `c`, or -1. */
  function LastIndexOf(s: string, c: char): (r: int)
    ensures -1 <= r < |s|
    ensures r >= 0 ==> s[r] == c && forall i :: r < i < |s| ==> s[i] != c
    ensures r == -1 <==> forall i :: 0 <= i < |s| ==> s[i] != c
  {
    if s == [] then -1
    else if s[|s| - 1] == c then |s| - 1
    else LastIndexOf(s[..|s| - 1], c)
  }

  /** `t` occurs in `s` at position `i`. */
  predicate OccursAt(s: string, t: string, i: int) {
    0 <= i && i + |t| <= |s| && s[i..i + |t|] == t
  }

  /** String.prototype.includes. */
  function Contains(s: string, t: string): (b: bool)
    ensures b <==> exists i :: OccursAt(s, t, i)
    decreases |s|
  {
    if |t| <= |s| && s[..|t|] == t then
      assert OccursAt(s, t, 0);
      true
    else if |s| <= |t| then
      assert !OccursAt(s, t, 0);
      false
    else
      var b := Contains(s[1..], t);
      assert b ==> exists i :: OccursAt(s, t, i) by {
        if b {
          var i :| OccursAt(s[1..], t, i);
          assert s[1..][i..i + |t|] == s[i + 1..i + 1 + |t|];
          assert OccursAt(s, t, i + 1);
        }
      }
      assert (exists i :: OccursAt(s, t, i)) ==> b by {
        if exists i :: OccursAt(s, t, i) {
          var i :| OccursAt(s, t, i);
          assert i != 0;
          assert s[1..][i - 1..i - 1 + |t|] == s[i..i + |t|];
          assert OccursAt(s[1..], t, i - 1);
        }
      }
      b
  }

  /** The lower-case form of an ASCII letter; every other character is kept. */
  function LowerAscii(c: char): char {
    if 'A' <= c <= 'Z' then (c as int + 32) as char else c
  }

  /** String.prototype.toLowerCase restricted to ASCII letters. */
  function ToLowerAscii(s: string): (r: string)
    ensures |r| == |s| && forall i :: 0 <= i < |s| ==> r[i] == LowerAscii(s[i])
  {
    seq(|s|, i requires 0 <= i < |s| => LowerAscii(s[i]))
  }

  /** s.replace(/c/g, rep): every occurrence of the character `c` becomes `rep`. */
  function ReplaceAll(s: string, c: char, rep: string): (r: string)
    ensures c !in rep ==> c !in r
  {
    if s == [] then [] else (if s[0] == c then rep else [s[0]]) + ReplaceAll(s[1..], c, rep)
  }

  /** The separators of both biography splitters: a line feed or a full stop. */
  predicate IsSegmentSeparator(c: char) {
    c == '\n' || c == '.'
  }

  predicate NoSeparator(piece: string) {
    forall i :: 0 <= i < |piece| ==> !IsSegmentSeparator(piece[i])
  }

  function CountSeparators(s: string): nat {
    if s == [] then 0 else (if IsSegmentSeparator(s[0]) then 1 else 0) + CountSeparators(s[1..])
  }

  /** `s` with its separators removed. */
  function WithoutSeparators(s: string): string {
    if s == [] then [] else (if IsSegmentSeparator(s[0]) then [] else [s[0]]) + WithoutSeparators(s[1..])
  }

  function Concat(pieces: seq<string>): string {
    if pieces == [] then [] else pieces[0] + Concat(pieces[1..])
  }

  /** string.Split(new[] { '\n', '.' }): the pieces between consecutive
      separators, empty ones included, one more than there are separators. */
  function SplitAtSeparators(s: string): (pieces: seq<string>)
    ensures |pieces| == 1 + CountSeparators(s)
    ensures forall k :: 0 <= k < |pieces| ==> NoSeparator(pieces[k])
  {
    if s == [] then [""]
    else
      var rest := SplitAtSeparators(s[1..]);
      if IsSegmentSeparator(s[0]) then [""] + rest
      else
        assert NoSeparator(rest[0]);
        [[s[0]] + rest[0]] + rest[1..]
  }

  /** The pieces of a split, put back together, are exactly the text with
      its separators taken out: splitting loses nothing but separators. */
  lemma {:induction false} SplitKeepsText(s: string)
    ensures Concat(SplitAtSeparators(s)) == WithoutSeparators(s)
  {
    if s != [] {
      SplitKeepsText(s[1..]);
      var rest := SplitAtSeparators(s[1..]);
      if IsSegmentSeparator(s[0]) {
        assert ([""] + rest)[1..] == rest;
      } else {
        var ps := [[s[0]] + rest[0]] + rest[1..];
        assert ps[1..] == rest[1..];
        assert Concat(rest) == rest[0] + Concat(rest[1..]);
      }
    }
  }

  /** The separators of `s`, in order. */
  function Separators(s: string): (seps: string)
    ensures |seps| == CountSeparators(s)
    ensures forall i :: 0 <= i < |seps| ==> IsSegmentSeparator(seps[i])
  {
    if s == [] then [] else (if IsSegmentSeparator(s[0]) then [s[0]] else []) + Separators(s[1..])
  }

  /** pieces[0], seps[0], pieces[1], ..., seps[|seps| - 1], pieces[|seps|]
      written one after another. */
  function Interleave(pieces: seq<string>, seps: string): string
    requires |pieces| == |seps| + 1
    decreases |seps|
  {
    if seps == [] then pieces[0] else pieces[0] + [seps[0]] + Interleave(pieces[1..], seps[1..])
  }

  lemma {:induction false} InterleaveGrowsHead(x: string, pieces: seq<string>, seps: string)
    requires |pieces| == |seps| + 1
    ensures Interleave([x + pieces[0]] + pieces[1..], seps) == x + Interleave(pieces, seps)
  {
    var ps := [x + pieces[0]] + pieces[1..];
    if seps != [] {
      assert ps[1..] == pieces[1..];
    }
  }

  /** Putting each separator back between the two pieces it divided gives
      the text again: with SplitAtSeparators' own contract (separator-free
      pieces, one more than the separators) this fixes every piece to the
      stretch between two consecutive separators. */
  lemma {:induction false} SplitRoundTrip(s: string)
    ensures Interleave(SplitAtSeparators(s), Separators(s)) == s
  {
    if s != [] {
      SplitRoundTrip(s[1..]);
      var rest := SplitAtSeparators(s[1..]);
      var seps := Separators(s[1..]);
      if IsSegmentSeparator(s[0]) {
        var ps := [""] + rest;
        var all := [s[0]] + seps;
        assert Separators(s) == all;
        assert ps[1..] == rest && all[1..] == seps;
        assert Interleave(ps, all) == "" + [s[0]] + Interleave(rest, seps);
      } else {
        assert Separators(s) == seps;
        InterleaveGrowsHead([s[0]], rest, seps);
      }
      assert s == [s[0]] + s[1..];
    }
  }

  /** StringSplitOptions.RemoveEmptyEntries. */
  function NonEmpty(pieces: seq<string>): (r: seq<string>)
    ensures forall k :: 0 <= k < |r| ==> r[k] != ""
    ensures forall x :: x in r <==> x in pieces && x != ""
  {
    if pieces == [] then [] else (if pieces[0] == "" then [] else [pieces[0]]) + NonEmpty(pieces[1..])
  }

  /** One piece is kept exactly when it is not empty: with NonEmptyConcat
      this fixes the result as every non-empty piece, in order. */
  lemma NonEmptySingle(p: string)
    ensures NonEmpty([p]) == (if p == "" then [] else [p])
  {
    assert [p][1..] == [];
  }

  /** s.split(/[.\n]+/) in JavaScript: a run of separators divides two pieces,
      so an empty piece can only come first or last. */
  function SplitAtSeparatorRuns(s: string): (pieces: seq<string>)
    ensures |pieces| >= 1
    ensures forall k :: 0 <= k < |pieces| ==> NoSeparator(pieces[k])
    ensures s != [] && !IsSegmentSeparator(s[0]) ==> pieces[0] != ""
    ensures forall k :: 0 < k < |pieces| - 1 ==> pieces[k] != ""
  {
    if s == [] then [""]
    else
      var rest := SplitAtSeparatorRuns(s[1..]);
      if IsSegmentSeparator(s[0]) then
        if |s| > 1 && IsSegmentSeparator(s[1]) then rest else [""] + rest
      else
        assert NoSeparator(rest[0]);
        [[s[0]] + rest[0]] + rest[1..]
  }

  lemma {:induction false} FirstPiecesAgree(s: string)
    ensures SplitAtSeparatorRuns(s)[0] == SplitAtSeparators(s)[0]
  {
    if s != [] {
      FirstPiecesAgree(s[1..]);
      if IsSegmentSeparator(s[0]) && |s| > 1 && IsSegmentSeparator(s[1]) {
        assert SplitAtSeparators(s[1..])[0] == "";
      }
    }
  }

  /** Dropping the empty pieces distributes over concatenation. */
  lemma NonEmptyConcat(a: seq<string>, b: seq<string>)
    ensures NonEmpty(a + b) == NonEmpty(a) + NonEmpty(b)
  {
    if a != [] {
      assert (a + b)[1..] == a[1..] + b;
      NonEmptyConcat(a[1..], b);
    } else {
      assert a + b == b;
    }
  }

  /** Splitting on runs of separators and splitting on each separator agree
      once the empty pieces are dropped: the two biography splitters see the
      same fragments. */
  lemma {:induction false} SplitsAgreeOnNonEmptyPieces(s: string)
    ensures NonEmpty(SplitAtSeparatorRuns(s)) == NonEmpty(SplitAtSeparators(s))
  {
    if s != [] {
      SplitsAgreeOnNonEmptyPieces(s[1..]);
      var runs := SplitAtSeparatorRuns(s[1..]);
      var each := SplitAtSeparators(s[1..]);
      if IsSegmentSeparator(s[0]) {
        NonEmptyConcat([""], each);
        if !(|s| > 1 && IsSegmentSeparator(s[1])) {
          NonEmptyConcat([""], runs);
        }
      } else {
        FirstPiecesAgree(s[1..]);
        assert runs == [runs[0]] + runs[1..];
        assert each == [each[0]] + each[1..];
        NonEmptyConcat([runs[0]], runs[1..]);
        NonEmptyConcat([each[0]], each[1..]);
        var head := NonEmpty([runs[0]]);
        assert NonEmpty(runs) == head + NonEmpty(runs[1..]);
        assert NonEmpty(each) == head + NonEmpty(each[1..]);
        assert NonEmpty(runs[1..]) == (head + NonEmpty(runs[1..]))[|head|..];
        assert NonEmpty(each[1..]) == (head + NonEmpty(each[1..]))[|head|..];
        NonEmptyConcat([[s[0]] + runs[0]], runs[1..]);
        NonEmptyConcat([[s[0]] + each[0]], each[1..]);
      }
    }
  }
}

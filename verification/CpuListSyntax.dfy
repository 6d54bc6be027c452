/**
 What a CPU list means, stated on the text itself: parts between commas, numbers with a sign and white space
 around them, ranges split at the first dash. The parser of Modules/lvs_cpu_targeting.py finds exactly these ids.
 */
module CpuListSyntax {
  import opened CpuList
  import opened IntSets
  import opened Options

  // ----- white space

  const BLANKS := {' ', '\t', '\n', '\U{0B}', '\U{0C}', '\r', '\U{1C}', '\U{1D}', '\U{1E}', '\U{1F}'}

  predicate Blank(s: string) { forall k :: 0 <= k < |s| ==> s[k] in BLANKS }

  /** The text is the body with white space around it. */
  ghost predicate Padded(text: string, body: string)
  {
    exists before, after :: Blank(before) && Blank(after) && text == before + body + after
  }

  /** No white space at either end. */
  predicate Trimmed(body: string)
  {
    body == [] || (body[0] !in BLANKS && body[|body| - 1] !in BLANKS)
  }

  lemma {:induction false} BlanksAreSpaces(c: char)
    ensures c in BLANKS <==> IsSpace(c)
  {
  }

  lemma {:induction false} StripSuffix(s: string, after: string)
    requires Blank(after)
    ensures Strip(s + after) == Strip(s)
    decreases |s| + |after|
  {
    if after == [] {
      assert s + after == s;
    } else if s == [] || IsSpace(s[0]) {
      BlanksAreSpaces((s + after)[0]);
      if s == [] {
        assert (s + after)[1..] == s + after[1..];
        StripSuffix(s, after[1..]);
      } else {
        assert (s + after)[1..] == s[1..] + after;
        StripSuffix(s[1..], after);
      }
    } else {
      var front := after[..|after| - 1];
      BlanksAreSpaces(after[|after| - 1]);
      assert (s + after)[..|s + after| - 1] == s + front;
      StripSuffix(s, front);
    }
  }

  lemma {:induction false} StripPrefix(before: string, s: string)
    requires Blank(before)
    ensures Strip(before + s) == Strip(s)
  {
    if before == [] {
      assert before + s == s;
    } else {
      BlanksAreSpaces(before[0]);
      assert (before + s)[1..] == before[1..] + s;
      StripPrefix(before[1..], s);
    }
  }

  lemma {:induction false} StripTrimmed(body: string)
    requires Trimmed(body)
    ensures Strip(body) == body
  {
    if body != [] {
      BlanksAreSpaces(body[0]);
      BlanksAreSpaces(body[|body| - 1]);
    }
  }

  /** White space up to i and from j on, and none at the ends of what is between. */
  predicate Bounds(s: string, i: nat, j: nat)
  {
    && i <= j <= |s| && Trimmed(s[i..j])
    && (forall k :: 0 <= k < i ==> s[k] in BLANKS) && (forall k :: j <= k < |s| ==> s[k] in BLANKS)
  }

  lemma {:induction false} BoundsAfterBlank(c: char, s: string, i: nat, j: nat)
    requires c in BLANKS && Bounds(s, i, j)
    ensures Bounds([c] + s, i + 1, j + 1) && ([c] + s)[i + 1..j + 1] == s[i..j]
  {
    assert ([c] + s)[i + 1..j + 1] == s[i..j];
  }

  lemma {:induction false} BoundsBeforeBlank(s: string, c: char, i: nat, j: nat)
    requires c in BLANKS && Bounds(s, i, j)
    ensures Bounds(s + [c], i, j) && (s + [c])[i..j] == s[i..j]
  {
    assert (s + [c])[i..j] == s[i..j];
  }

  /** Strip keeps the stretch from i to j. */
  lemma {:induction false} StripBounds(s: string) returns (i: nat, j: nat)
    ensures Bounds(s, i, j) && Strip(s) == s[i..j]
  {
    i, j := 0, |s|;
    if s != [] {
      BlanksAreSpaces(s[0]);
      BlanksAreSpaces(s[|s| - 1]);
      if IsSpace(s[0]) {
        i, j := StripBounds(s[1..]);
        BoundsAfterBlank(s[0], s[1..], i, j);
        assert s == [s[0]] + s[1..];
        i, j := i + 1, j + 1;
      } else if IsSpace(s[|s| - 1]) {
        i, j := StripBounds(s[..|s| - 1]);
        BoundsBeforeBlank(s[..|s| - 1], s[|s| - 1], i, j);
        assert s == s[..|s| - 1] + [s[|s| - 1]];
      } else {
        assert s[0..|s|] == s;
      }
    }
  }

  /** Strip removes all the white space at both ends and nothing else. */
  lemma {:induction false} StripIsTheMiddle(s: string) returns (before: string, after: string)
    ensures Blank(before) && Blank(after) && s == before + Strip(s) + after && Trimmed(Strip(s))
  {
    var i, j := StripBounds(s);
    before, after := s[..i], s[j..];
    assert s == s[..i] + s[i..j] + s[j..];
  }

  lemma {:induction false} StripPadded(text: string, body: string)
    ensures Trimmed(body) && Padded(text, body) <==> body == Strip(text)
  {
    if Trimmed(body) && Padded(text, body) {
      var before, after :| Blank(before) && Blank(after) && text == before + body + after;
      StripSuffix(before + body, after);
      StripPrefix(before, body);
      StripTrimmed(body);
    }
    if body == Strip(text) {
      var before, after := StripIsTheMiddle(text);
    }
  }

  // ----- numbers

  /** Digits, with single underscores between them. */
  predicate Digits(s: string)
  {
    && s != [] && IsDigit(s[0]) && IsDigit(s[|s| - 1])
    && (forall k :: 0 <= k < |s| ==> IsDigit(s[k]) || s[k] == '_')
    && (forall k :: 0 < k < |s| ==> IsDigit(s[k - 1]) || IsDigit(s[k]))
  }

  /** The value of the digits, read from the left on top of what was read before. */
  function Reading(s: string, before: int): int
  {
    if s == [] then before
    else if IsDigit(s[0]) then Reading(s[1..], 10 * before + DigitValue(s[0]))
    else Reading(s[1..], before)
  }

  lemma {:induction false} ReadingOneMore(s: string, c: char, before: int)
    ensures Reading(s + [c], before)
         == if IsDigit(c) then 10 * Reading(s, before) + DigitValue(c) else Reading(s, before)
  {
    if s == [] {
      assert s + [c] == [c];
    } else {
      assert (s + [c])[1..] == s[1..] + [c];
      ReadingOneMore(s[1..], c, if IsDigit(s[0]) then 10 * before + DigitValue(s[0]) else before);
    }
  }

  /** What int() reads before the last digit. */
  function Kept(front: string): string
    requires front != []
  {
    if front[|front| - 1] == '_' then front[..|front| - 1] else front
  }

  lemma {:induction false} DigitsOneMore(front: string, last: char)
    requires front != [] && IsDigit(last)
    ensures Digits(front + [last]) <==> Digits(Kept(front))
  {
    var s, kept := front + [last], Kept(front);
    assert forall k :: 0 <= k < |kept| ==> s[k] == kept[k];
    if Digits(s) {
      assert s[|front| - 1] == front[|front| - 1];
      if front[|front| - 1] == '_' { assert |front| > 1 && IsDigit(s[|front| - 2]); }
    }
  }

  lemma {:induction false} ReadingKept(front: string)
    requires front != []
    ensures Reading(Kept(front), 0) == Reading(front, 0)
  {
    if front[|front| - 1] == '_' {
      assert front == Kept(front) + ['_'];
      ReadingOneMore(Kept(front), '_', 0);
    }
  }

  /** int() of a text without sign and white space. */
  lemma {:induction false} ParseDigitsMeans(s: string)
    ensures ParseDigits(s) == if Digits(s) then Some(Reading(s, 0)) else None
  {
    if s != [] && IsDigit(s[|s| - 1]) {
      var front, last := s[..|s| - 1], s[|s| - 1];
      assert s == front + [last];
      ReadingOneMore(front, last, 0);
      if front != [] {
        DigitsOneMore(front, last);
        ReadingKept(front);
        ParseDigitsMeans(Kept(front));
      }
    }
  }

  /** A decimal integer with at most one sign. */
  predicate Numeral(body: string, n: int)
  {
    || (Digits(body) && n == Reading(body, 0))
    || (body != [] && body[0] == '+' && Digits(body[1..]) && n == Reading(body[1..], 0))
    || (body != [] && body[0] == '-' && Digits(body[1..]) && n == -Reading(body[1..], 0))
  }

  ghost predicate Spells(text: string, n: int)
  {
    exists body :: Padded(text, body) && Numeral(body, n)
  }

  lemma {:induction false} NumeralIsTrimmed(body: string, n: int)
    requires Numeral(body, n)
    ensures Trimmed(body) && body != []
  {
    BlanksAreSpaces(body[0]);
    BlanksAreSpaces(body[|body| - 1]);
  }

  lemma {:induction false} ParseStripped(text: string, n: int)
    ensures ParseInt(text) == Some(n) <==> Numeral(Strip(text), n)
  {
    var body := Strip(text);
    ParseDigitsMeans(body);
    if body != [] { ParseDigitsMeans(body[1..]); }
  }

  /** int(text, 10) succeeds exactly on padded numerals, with their value. */
  lemma {:induction false} ParseIntMeans(text: string, n: int)
    ensures ParseInt(text) == Some(n) <==> Spells(text, n)
  {
    ParseStripped(text, n);
    if Numeral(Strip(text), n) { StripPadded(text, Strip(text)); }
    if Spells(text, n) {
      var body :| Padded(text, body) && Numeral(body, n);
      NumeralIsTrimmed(body, n);
      StripPadded(text, body);
    }
  }

  // ----- one part

  /** Two texts spell the ends of a range of natural numbers around x. */
  ghost predicate SpellsRange(a: string, b: string, x: int)
  {
    exists low, high :: Spells(a, low) && Spells(b, high) && 0 <= low <= x <= high
  }

  /** The part is the number x, or a range around x that is split at the first dash. */
  ghost predicate Adds(raw: string, x: int)
  {
    || (Lacks(raw, '-') && x >= 0 && Spells(raw, x))
    || exists dash :: 0 <= dash < |raw| && SplitsAt(raw, dash) && SpellsRange(raw[..dash], raw[dash + 1..], x)
  }

  predicate SplitsAt(raw: string, dash: nat)
    requires dash < |raw|
  {
    raw[dash] == '-' && forall k :: 0 <= k < dash ==> raw[k] != '-'
  }

  lemma {:induction false} ParsePadded(before: string, s: string, after: string)
    requires Blank(before) && Blank(after)
    ensures ParseInt(before + s + after) == ParseInt(s)
  {
    StripSuffix(before + s, after);
    StripPrefix(before, s);
  }

  /** Both texts parse, to the ends of a range of natural numbers around x. */
  predicate Brackets(a: Option<int>, b: Option<int>, x: int)
  {
    a.Some? && b.Some? && 0 <= a.value <= x <= b.value
  }

  lemma {:induction false} ParsedRange(a: string, b: string, x: int)
    ensures SpellsRange(a, b, x) <==> Brackets(ParseInt(a), ParseInt(b), x)
  {
    forall n ensures ParseInt(a) == Some(n) <==> Spells(a, n) { ParseIntMeans(a, n); }
    forall n ensures ParseInt(b) == Some(n) <==> Spells(b, n) { ParseIntMeans(b, n); }
  }

  lemma {:induction false} OneSplit(raw: string, dash: nat, x: int)
    requires dash < |raw| && SplitsAt(raw, dash)
    ensures Adds(raw, x) <==> SpellsRange(raw[..dash], raw[dash + 1..], x)
  {
    assert !Lacks(raw, '-');
    assert forall other :: 0 <= other < |raw| && SplitsAt(raw, other) ==> other == dash;
  }

  lemma {:induction false} AroundDash(raw: string, before: string, part: string, after: string, i: nat, dash: nat)
    requires Blank(before) && Blank(after) && i < |part| && raw == before + part + after && dash == |before| + i
    ensures ParseInt(raw[..dash]) == ParseInt(part[..i]) && ParseInt(raw[dash + 1..]) == ParseInt(part[i + 1..])
  {
    assert raw[..dash] == before + part[..i] + [] && raw[dash + 1..] == [] + part[i + 1..] + after;
    ParsePadded(before, part[..i], []);
    ParsePadded([], part[i + 1..], after);
  }

  lemma {:induction false} DashAdds(raw: string, dash: nat, x: int)
    requires dash < |raw| && SplitsAt(raw, dash)
    ensures Adds(raw, x) <==> Brackets(ParseInt(raw[..dash]), ParseInt(raw[dash + 1..]), x)
  {
    OneSplit(raw, dash, x);
    ParsedRange(raw[..dash], raw[dash + 1..], x);
  }

  lemma {:induction false} DashIds(raw: string, part: string, i: nat, x: int)
    requires part == Strip(raw) && '-' in part && i == IndexOf(part, '-')
    ensures x in PartIds(raw) <==> Brackets(ParseInt(part[..i]), ParseInt(part[i + 1..]), x)
  {
  }

  lemma {:induction false} DashInside(raw: string, before: string, part: string, after: string, i: nat)
    requires Blank(before) && i < |part| && part[i] == '-' && '-' !in part[..i] && raw == before + part + after
    ensures SplitsAt(raw, |before| + i)
  {
    assert forall k :: 0 <= k < i ==> part[k] == part[..i][k];
  }

  lemma {:induction false} PartWithDash(raw: string, before: string, part: string, after: string, i: nat, x: int)
    requires Blank(before) && Blank(after) && raw == before + part + after
    requires i < |part| && part[i] == '-' && '-' !in part[..i]
    requires x in PartIds(raw) <==> Brackets(ParseInt(part[..i]), ParseInt(part[i + 1..]), x)
    ensures x in PartIds(raw) <==> Adds(raw, x)
  {
    var dash := |before| + i;
    DashInside(raw, before, part, after, i);
    AroundDash(raw, before, part, after, i, dash);
    DashAdds(raw, dash, x);
  }

  lemma {:induction false} PartWithoutDash(raw: string, before: string, part: string, after: string, x: int)
    requires Blank(before) && Blank(after) && raw == before + part + after && part == Strip(raw) && '-' !in part
    ensures x in PartIds(raw) <==> Adds(raw, x)
  {
    assert Lacks(raw, '-');
    ParsePadded(before, part, after);
    ParseIntMeans(raw, x);
    if part == [] { ParseStripped(raw, x); }
  }

  /** What one part adds; anything malformed adds nothing. */
  lemma {:induction false} PartIdsMeans(raw: string, x: int)
    ensures x in PartIds(raw) <==> Adds(raw, x)
  {
    var before, after := StripIsTheMiddle(raw);
    if '-' in Strip(raw) {
      var i := IndexOf(Strip(raw), '-');
      DashIds(raw, Strip(raw), i, x);
      PartWithDash(raw, before, Strip(raw), after, i, x);
    } else {
      PartWithoutDash(raw, before, Strip(raw), after, x);
    }
  }

  // ----- the parts of a text

  /** The text up to its first comma. */
  predicate FirstPart(s: string, raw: string)
  {
    |raw| <= |s| && s[..|raw|] == raw && Lacks(raw, ',') && (|raw| < |s| ==> s[|raw|] == ',')
  }

  /** A stretch of text that begins after a comma and ends before the next one. */
  predicate PartAt(s: string, from: nat, raw: string)
  {
    0 < from <= |s| && s[from - 1] == ',' && FirstPart(s[from..], raw)
  }

  ghost predicate LaterPart(s: string, raw: string)
  {
    exists from: nat :: PartAt(s, from, raw)
  }

  /** Some part of the text adds x. */
  ghost predicate Named(text: string, x: int)
  {
    exists raw :: (FirstPart(text, raw) || LaterPart(text, raw)) && Adds(raw, x)
  }

  lemma {:induction false} FirstPartStep(s: string, raw: string)
    requires s != []
    ensures FirstPart(s, raw)
       <==> if s[0] == ',' then raw == [] else raw != [] && raw[0] == s[0] && FirstPart(s[1..], raw[1..])
  {
    if raw != [] {
      assert |raw| <= |s| ==> (s[..|raw|] == raw <==> s[0] == raw[0] && s[1..][..|raw| - 1] == raw[1..]) by {
        if |raw| <= |s| {
          assert s[..|raw|] == [s[0]] + s[1..][..|raw| - 1] && raw == [raw[0]] + raw[1..];
        }
      }
      assert Lacks(raw, ',') <==> raw[0] != ',' && Lacks(raw[1..], ',') by {
        assert raw == [raw[0]] + raw[1..];
      }
    }
  }

  lemma {:induction false} LaterPartStep(s: string, raw: string)
    requires s != []
    ensures LaterPart(s, raw) <==> (s[0] == ',' && FirstPart(s[1..], raw)) || LaterPart(s[1..], raw)
  {
    forall from: nat | 2 <= from <= |s| ensures PartAt(s, from, raw) <==> PartAt(s[1..], from - 1, raw) {
      assert s[1..][from - 1..] == s[from..];
    }
    if s[0] == ',' && FirstPart(s[1..], raw) { assert PartAt(s, 1, raw); }
    if LaterPart(s[1..], raw) {
      var from: nat :| PartAt(s[1..], from, raw);
      assert PartAt(s, from + 1, raw);
    }
  }

  /** split(",") finds exactly the parts. */
  lemma {:induction false} SplitMeans(s: string, raw: string)
    ensures FirstPart(s, raw) <==> raw == Split(s, ',')[0]
    ensures LaterPart(s, raw) <==> raw in Split(s, ',')[1..]
  {
    if s != [] {
      FirstPartStep(s, raw);
      LaterPartStep(s, raw);
      var rest := Split(s[1..], ',');
      SplitMeans(s[1..], raw);
      if raw != [] {
        SplitMeans(s[1..], raw[1..]);
        assert raw == [raw[0]] + raw[1..];
      }
      assert rest == [rest[0]] + rest[1..];
    }
  }

  /** Some piece adds x. */
  predicate PieceAdds(pieces: seq<string>, x: int)
  {
    exists raw :: raw in pieces && x in PartIds(raw)
  }

  lemma {:induction false} OnePieceMore(pieces: seq<string>, raw: string, x: int)
    ensures PieceAdds([raw] + pieces, x) <==> x in PartIds(raw) || PieceAdds(pieces, x)
    ensures PieceAdds(pieces + [raw], x) <==> x in PartIds(raw) || PieceAdds(pieces, x)
  {
    assert raw in [raw] + pieces && raw in pieces + [raw];
  }

  lemma {:induction false} PiecesAreParts(s: string, x: int)
    ensures PieceAdds(Split(s, ','), x) <==> Named(s, x)
  {
    var pieces := Split(s, ',');
    forall raw ensures raw in pieces <==> FirstPart(s, raw) || LaterPart(s, raw) {
      SplitMeans(s, raw);
      assert pieces == [pieces[0]] + pieces[1..];
    }
    forall raw ensures x in PartIds(raw) <==> Adds(raw, x) { PartIdsMeans(raw, x); }
  }

  lemma {:induction false} UnionMeans(parts: seq<string>, sets: seq<set<int>>, n: nat, x: int)
    requires n <= |parts| == |sets| && forall k :: 0 <= k < |sets| ==> sets[k] == PartIds(parts[k])
    ensures x in Union(sets, n) <==> PieceAdds(parts[..n], x)
  {
    if n > 0 {
      UnionMeans(parts, sets, n - 1, x);
      assert parts[..n] == parts[..n - 1] + [parts[n - 1]];
      OnePieceMore(parts[..n - 1], parts[n - 1], x);
    }
  }

  // ----- white space around the whole text

  /** The pieces with one more character at the very end. */
  function Lengthened(pieces: seq<string>, c: char): seq<string>
    requires pieces != []
  {
    if |pieces| == 1 then [pieces[0] + [c]] else [pieces[0]] + Lengthened(pieces[1..], c)
  }

  lemma {:induction false} SplitAfter(s: string, c: char)
    requires c != ','
    ensures Split(s + [c], ',') == Lengthened(Split(s, ','), c)
  {
    if s == [] {
      assert s + [c] == [c] && [c][1..] == [] && [c] + [] == [c];
      assert Split([c], ',') == [[c]];
    } else {
      assert (s + [c])[1..] == s[1..] + [c];
      SplitAfter(s[1..], c);
      var rest := Split(s[1..], ',');
      assert ([s[0]] + rest[0]) + [c] == [s[0]] + (rest[0] + [c]);
      assert ([[]] + rest)[1..] == rest && ([[s[0]] + rest[0]] + rest[1..])[1..] == rest[1..];
    }
  }

  lemma {:induction false} OnePieceAdds(raw: string, x: int)
    ensures PieceAdds([raw], x) <==> x in PartIds(raw)
  {
    assert raw in [raw];
  }

  lemma {:induction false} LengthenedAdds(pieces: seq<string>, c: char, x: int)
    requires pieces != [] && c in BLANKS
    ensures PieceAdds(Lengthened(pieces, c), x) <==> PieceAdds(pieces, x)
  {
    if |pieces| == 1 {
      StripSuffix(pieces[0], [c]);
      OnePieceAdds(pieces[0], x);
      OnePieceAdds(pieces[0] + [c], x);
      assert pieces == [pieces[0]];
    } else {
      LengthenedAdds(pieces[1..], c, x);
      OnePieceMore(pieces[1..], pieces[0], x);
      OnePieceMore(Lengthened(pieces[1..], c), pieces[0], x);
      assert pieces == [pieces[0]] + pieces[1..];
    }
  }

  lemma {:induction false} SplitBefore(c: char, s: string)
    requires c != ','
    ensures var pieces := Split(s, ','); Split([c] + s, ',') == [[c] + pieces[0]] + pieces[1..]
  {
    assert ([c] + s)[1..] == s;
  }

  lemma {:induction false} PrefixedAdds(pieces: seq<string>, c: char, x: int)
    requires pieces != [] && c in BLANKS
    ensures PieceAdds([[c] + pieces[0]] + pieces[1..], x) <==> PieceAdds(pieces, x)
  {
    StripPrefix([c], pieces[0]);
    OnePieceMore(pieces[1..], [c] + pieces[0], x);
    OnePieceMore(pieces[1..], pieces[0], x);
    assert pieces == [pieces[0]] + pieces[1..];
  }

  lemma {:induction false} StrippedPieces(text: string, x: int)
    ensures PieceAdds(Split(Strip(text), ','), x) <==> PieceAdds(Split(text, ','), x)
  {
    if text != [] {
      BlanksAreSpaces(text[0]);
      BlanksAreSpaces(text[|text| - 1]);
      if IsSpace(text[0]) {
        StrippedPieces(text[1..], x);
        SplitBefore(text[0], text[1..]);
        PrefixedAdds(Split(text[1..], ','), text[0], x);
        assert text == [text[0]] + text[1..];
      } else if IsSpace(text[|text| - 1]) {
        StrippedPieces(text[..|text| - 1], x);
        SplitAfter(text[..|text| - 1], text[|text| - 1]);
        LengthenedAdds(Split(text[..|text| - 1], ','), text[|text| - 1], x);
        assert text == text[..|text| - 1] + [text[|text| - 1]];
      }
    }
  }

  /** The parser finds an id exactly when some part of the text adds it, whatever the text. */
  lemma {:induction false} ParsedIffNamed(text: string, x: int)
    ensures x in ParsedIds(text) <==> Named(text, x)
  {
    var parts := Split(Strip(text), ',');
    assert parts[..|parts|] == parts;
    UnionMeans(parts, PartSets(parts), |parts|, x);
    StrippedPieces(text, x);
    PiecesAreParts(text, x);
  }
}

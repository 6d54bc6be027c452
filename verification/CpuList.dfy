/**
 The Linux CPU-list syntax: the parser and printer of Modules/lvs_cpu_targeting.py and the separate printer
 of Modules/lvs_cpu_topology.py. Text is ASCII.
 */
module CpuList {
  import opened IntSets
  import opened Options

  // ----- text

  /** The ASCII characters that strip() and int() treat as white space. */
  predicate IsSpace(c: char) { c == ' ' || 9 <= c as int <= 13 || 28 <= c as int <= 31 }

  predicate IsDigit(c: char) { '0' <= c <= '9' }

  function Strip(s: string): string
  {
    if s == [] then []
    else if IsSpace(s[0]) then Strip(s[1..])
    else if IsSpace(s[|s| - 1]) then Strip(s[..|s| - 1])
    else s
  }

  /** s.split(separator): always at least one piece. */
  function Split(s: string, separator: char): (pieces: seq<string>)
    ensures pieces != []
  {
    if s == [] then [[]]
    else
      var rest := Split(s[1..], separator);
      if s[0] == separator then [[]] + rest else [[s[0]] + rest[0]] + rest[1..]
  }

  /** separator.join(pieces). */
  function Join(pieces: seq<string>, separator: char): string
  {
    if pieces == [] then []
    else if |pieces| == 1 then pieces[0]
    else pieces[0] + [separator] + Join(pieces[1..], separator)
  }

  function IndexOf(s: string, c: char): (i: nat)
    requires c in s
    ensures i < |s| && s[i] == c && c !in s[..i]
  {
    if s[0] == c then 0 else 1 + IndexOf(s[1..], c)
  }

  // ----- numbers

  function DigitValue(c: char): (d: nat)
    requires IsDigit(c)
    ensures d <= 9
  {
    (c as int) - ('0' as int)
  }

  function DigitChar(d: nat): (c: char)
    requires d <= 9
    ensures IsDigit(c) && DigitValue(c) == d
  {
    (('0' as int) + d) as char
  }

  /** Digits, with single underscores allowed between them. */
  function ParseDigits(s: string): (r: Option<int>)
    ensures r.Some? ==> r.value >= 0
  {
    if s == [] || !IsDigit(s[|s| - 1]) then None
    else
      var last, front := DigitValue(s[|s| - 1]), s[..|s| - 1];
      if front == [] then Some(last)
      else
        match ParseDigits(if front[|front| - 1] == '_' then front[..|front| - 1] else front)
        case Some(n) => Some(10 * n + last)
        case None => None
  }

  /** int(text, 10); None stands for the ValueError. */
  function ParseInt(text: string): Option<int>
  {
    var s := Strip(text);
    if s != [] && s[0] == '-' then
      match ParseDigits(s[1..]) case Some(n) => Some(-n) case None => None
    else
      match ParseDigits(if s != [] && s[0] == '+' then s[1..] else s) case Some(n) => Some(n) case None => None
  }

  function Decimal(n: nat): (s: string)
    ensures s != [] && forall k :: 0 <= k < |s| ==> IsDigit(s[k])
  {
    if n < 10 then [DigitChar(n)] else Decimal(n / 10) + [DigitChar(n % 10)]
  }

  /** str(n). */
  function Print(n: int): string
  {
    if n < 0 then "-" + Decimal(-n) else Decimal(n)
  }

  lemma {:induction false} ParseDecimal(n: nat)
    ensures ParseDigits(Decimal(n)) == Some(n)
  {
    if n >= 10 {
      var s := Decimal(n);
      assert s[..|s| - 1] == Decimal(n / 10);
      ParseDecimal(n / 10);
    }
  }

  lemma {:induction false} ParsePrinted(n: nat)
    ensures ParseInt(Print(n)) == Some(n)
  {
    ParseDecimal(n);
    var s := Decimal(n);
    assert !IsSpace(s[0]) && !IsSpace(s[|s| - 1]);
  }

  // ----- parsing

  /** What one comma-separated part adds. */
  function PartIds(raw: string): set<int>
  {
    var part := Strip(raw);
    if part == [] then {}
    else if '-' !in part then
      match ParseInt(part)
      case Some(id) => if id >= 0 then {id} else {}
      case None => {}
    else
      var dash := IndexOf(part, '-');
      match (ParseInt(part[..dash]), ParseInt(part[dash + 1..]))
      case (Some(start), Some(end)) =>
        if start < 0 || end < start then {} else Interval(start, end)
      case _ => {}
  }

  function PartSets(parts: seq<string>): (sets: seq<set<int>>)
    ensures |sets| == |parts|
    ensures forall k :: 0 <= k < |sets| ==> sets[k] == PartIds(parts[k])
  {
    seq(|parts|, k requires 0 <= k < |parts| => PartIds(parts[k]))
  }

  /** The union of the first n sets. */
  function Union(sets: seq<set<int>>, n: nat): set<int>
    requires n <= |sets|
  {
    if n == 0 then {} else Union(sets, n - 1) + sets[n - 1]
  }

  function ParsedIds(text: string): seq<int>
  {
    var parts := Split(Strip(text), ',');
    SortedIds(Union(PartSets(parts), |parts|))
  }

  /** parse_linux_cpu_list. */
  method ParseLinuxCpuList(text: string) returns (ids: seq<int>)
    ensures ids == ParsedIds(text)
    ensures StrictlyIncreasing(ids) && forall x :: x in ids ==> x >= 0
  {
    var parts, values := Split(Strip(text), ','), {};
    ghost var sets := PartSets(parts);
    for i := 0 to |parts|
      invariant values == Union(sets, i)
    {
      assert sets[i] == PartIds(parts[i]);
      values := values + PartIds(parts[i]);
    }
    PartIdsAreNatural(parts, |parts|);
    ids := SortedIds(values);
  }

  // ----- printing

  datatype Range = Range(low: int, high: int)

  /** The maximal ranges of a strictly increasing list, by its first n elements. */
  function RangesOf(xs: seq<int>, n: nat): (ranges: seq<Range>)
    requires n <= |xs|
    ensures n > 0 ==> ranges != [] && ranges[|ranges| - 1].high == xs[n - 1]
  {
    if n == 0 then []
    else
      var before := RangesOf(xs, n - 1);
      if n > 1 && xs[n - 1] == xs[n - 2] + 1
      then before[|before| - 1 := before[|before| - 1].(high := xs[n - 1])]
      else before + [Range(xs[n - 1], xs[n - 1])]
  }

  function RangeText(r: Range): string
  {
    if r.low == r.high then Print(r.low) else Print(r.low) + "-" + Print(r.high)
  }

  function RangeTexts(ranges: seq<Range>): (texts: seq<string>)
    ensures |texts| == |ranges|
    ensures forall k :: 0 <= k < |texts| ==> texts[k] == RangeText(ranges[k])
  {
    seq(|ranges|, k requires 0 <= k < |ranges| => RangeText(ranges[k]))
  }

  lemma {:induction false} TextsGrow(ranges: seq<Range>, r: Range)
    ensures RangeTexts(ranges + [r]) == RangeTexts(ranges) + [RangeText(r)]
  {
  }

  function PrintedList(ordered: seq<int>): string
  {
    Join(RangeTexts(RangesOf(ordered, |ordered|)), ',')
  }

  function Wanted(ids: seq<int>): set<int> { set x | x in ids && x >= 0 }

  /** format_linux_cpu_list: negative ids are dropped. */
  method FormatLinuxCpuList(ids: seq<int>) returns (text: string)
    ensures text == PrintedList(SortedIds(Wanted(ids)))
  {
    var ordered := SortedIds(Wanted(ids));
    if ordered == [] { return ""; }
    var parts: seq<string>, start, previous := [], ordered[0], ordered[0];
    ghost var ranges := [];
    for i := 1 to |ordered|
      invariant RangesOf(ordered, i) == ranges + [Range(start, previous)] && previous == ordered[i - 1]
      invariant parts == RangeTexts(ranges)
    {
      var id := ordered[i];
      if id == previous + 1 {
        previous := id;
      } else {
        TextsGrow(ranges, Range(start, previous));
        parts := parts + [if start == previous then Print(start) else Print(start) + "-" + Print(previous)];
        ranges := ranges + [Range(start, previous)];
        start, previous := id, id;
      }
    }
    TextsGrow(ranges, Range(start, previous));
    parts := parts + [if start == previous then Print(start) else Print(start) + "-" + Print(previous)];
    assert parts == RangeTexts(RangesOf(ordered, |ordered|));
    text := Join(parts, ',');
  }

  /** _compact_cpu_list of the topology module: all ids are printed. */
  method CompactCpuList(values: seq<int>) returns (text: string)
    ensures text == PrintedList(SortedIds(set x | x in values))
  {
    var ordered := SortedIds(set x | x in values);
    if ordered == [] { return ""; }
    var texts: seq<string>, start, prev := [], ordered[0], ordered[0];
    ghost var ranges := [];
    for i := 1 to |ordered|
      invariant RangesOf(ordered, i) == ranges + [Range(start, prev)] && prev == ordered[i - 1]
      invariant texts == RangeTexts(ranges)
    {
      var value := ordered[i];
      if value == prev + 1 {
        prev := value;
        continue;
      }
      TextsGrow(ranges, Range(start, prev));
      texts := texts + [if start != prev then Print(start) + "-" + Print(prev) else Print(start)];
      ranges := ranges + [Range(start, prev)];
      start, prev := value, value;
    }
    TextsGrow(ranges, Range(start, prev));
    texts := texts + [if start != prev then Print(start) + "-" + Print(prev) else Print(start)];
    assert texts == RangeTexts(RangesOf(ordered, |ordered|));
    text := Join(texts, ',');
  }

  // ----- what the ranges are

  /** Ranges in increasing order that never touch. */
  predicate Separated(ranges: seq<Range>)
  {
    && (forall k :: 0 <= k < |ranges| ==> ranges[k].low <= ranges[k].high)
    && (forall k :: 0 < k < |ranges| ==> ranges[k - 1].high + 1 < ranges[k].low)
  }

  function RangeIds(ranges: seq<Range>, n: nat): set<int>
    requires n <= |ranges|
  {
    if n == 0 then {} else RangeIds(ranges, n - 1) + Interval(ranges[n - 1].low, ranges[n - 1].high)
  }

  lemma {:induction false} RangeIdsOfPrefix(ranges: seq<Range>, other: seq<Range>, n: nat)
    requires n <= |ranges| && n <= |other| && forall k :: 0 <= k < n ==> ranges[k] == other[k]
    ensures RangeIds(ranges, n) == RangeIds(other, n)
  {
    if n > 0 { RangeIdsOfPrefix(ranges, other, n - 1); }
  }

  /** The printed ranges are strictly increasing, never adjacent, and end where the list does. */
  lemma {:induction false} RangesAreSeparated(xs: seq<int>, n: nat)
    requires StrictlyIncreasing(xs) && n <= |xs|
    ensures Separated(RangesOf(xs, n))
    ensures n > 0 ==> RangesOf(xs, n)[0].low == xs[0]
  {
    if n > 0 {
      RangesAreSeparated(xs, n - 1);
    }
  }

  lemma {:induction false} LastRangeGrows(before: seq<Range>, ranges: seq<Range>, x: int, y: int)
    requires before != [] && before[|before| - 1].low <= before[|before| - 1].high == x - 1
    requires ranges == before[|before| - 1 := before[|before| - 1].(high := x)]
    ensures y in RangeIds(ranges, |ranges|) <==> y in RangeIds(before, |before|) || y == x
  {
    RangeIdsOfPrefix(ranges, before, |ranges| - 1);
  }

  lemma {:induction false} RangeIsAdded(before: seq<Range>, x: int, y: int)
    ensures var ranges := before + [Range(x, x)];
            y in RangeIds(ranges, |ranges|) <==> y in RangeIds(before, |before|) || y == x
  {
    RangeIdsOfPrefix(before + [Range(x, x)], before, |before|);
  }

  /** The ranges cover exactly the list. */
  lemma {:induction false} RangesCover(xs: seq<int>, n: nat, y: int)
    requires StrictlyIncreasing(xs) && n <= |xs|
    ensures y in RangeIds(RangesOf(xs, n), |RangesOf(xs, n)|) <==> y in xs[..n]
  {
    if n > 0 {
      var before := RangesOf(xs, n - 1);
      RangesCover(xs, n - 1, y);
      RangesAreSeparated(xs, n - 1);
      assert xs[..n] == xs[..n - 1] + [xs[n - 1]];
      if n > 1 && xs[n - 1] == xs[n - 2] + 1 {
        LastRangeGrows(before, RangesOf(xs, n), xs[n - 1], y);
      } else {
        RangeIsAdded(before, xs[n - 1], y);
      }
    }
  }

  // ----- round trips

  predicate Lacks(s: string, c: char) { forall k :: 0 <= k < |s| ==> s[k] != c }

  lemma {:induction false} SplitPiece(piece: string, separator: char)
    requires Lacks(piece, separator)
    ensures Split(piece, separator) == [piece]
  {
    if piece != [] {
      SplitPiece(piece[1..], separator);
      assert [piece[0]] + piece[1..] == piece;
    }
  }

  lemma {:induction false} SplitFirstPiece(piece: string, rest: string, separator: char)
    requires Lacks(piece, separator)
    ensures Split(piece + [separator] + rest, separator) == [piece] + Split(rest, separator)
  {
    var s := piece + [separator] + rest;
    if piece == [] {
      assert s[1..] == rest;
    } else {
      assert s[1..] == piece[1..] + [separator] + rest;
      SplitFirstPiece(piece[1..], rest, separator);
      assert [piece[0]] + piece[1..] == piece;
    }
  }

  /** Splitting undoes joining when no piece contains the separator. */
  lemma {:induction false} SplitJoined(pieces: seq<string>, separator: char)
    requires pieces != [] && forall k :: 0 <= k < |pieces| ==> Lacks(pieces[k], separator)
    ensures Split(Join(pieces, separator), separator) == pieces
  {
    if |pieces| == 1 {
      SplitPiece(pieces[0], separator);
      assert pieces == [pieces[0]];
    } else {
      SplitFirstPiece(pieces[0], Join(pieces[1..], separator), separator);
      SplitJoined(pieces[1..], separator);
      assert pieces == [pieces[0]] + pieces[1..];
    }
  }

  /** Text that begins and ends with a digit. */
  predicate Tight(s: string)
  {
    s != [] && IsDigit(s[0]) && IsDigit(s[|s| - 1])
  }

  predicate Natural(r: Range) { 0 <= r.low <= r.high }

  lemma {:induction false} RangeTextIsTight(r: Range)
    requires Natural(r)
    ensures Tight(RangeText(r)) && Lacks(RangeText(r), ',')
  {
  }

  lemma {:induction false} JoinIsTight(pieces: seq<string>)
    requires pieces != [] && forall k :: 0 <= k < |pieces| ==> Tight(pieces[k])
    ensures Tight(Join(pieces, ','))
  {
    if |pieces| > 1 { JoinIsTight(pieces[1..]); }
  }

  lemma {:induction false} IndexIsFirst(front: string, rest: string, c: char)
    requires Lacks(front, c)
    ensures c in front + [c] + rest && IndexOf(front + [c] + rest, c) == |front|
  {
    var s := front + [c] + rest;
    assert s[|front|] == c;
    if front != [] {
      assert s[0] == front[0] && s[1..] == front[1..] + [c] + rest;
      IndexIsFirst(front[1..], rest, c);
    }
  }

  lemma {:induction false} StripTight(s: string)
    requires Tight(s)
    ensures Strip(s) == s
  {
  }

  lemma {:induction false} PartOfPair(r: Range)
    requires Natural(r) && r.low < r.high
    ensures PartIds(RangeText(r)) == Interval(r.low, r.high)
  {
    var low, high, text := Print(r.low), Print(r.high), RangeText(r);
    assert text == low + ['-'] + high && text[..|low|] == low && text[|low| + 1..] == high;
    RangeTextIsTight(r);
    StripTight(text);
    IndexIsFirst(low, high, '-');
    ParsePrinted(r.low);
    ParsePrinted(r.high);
  }

  /** Parsing one printed range gives its ids. */
  lemma {:induction false} PartOfRange(r: Range)
    requires Natural(r)
    ensures PartIds(RangeText(r)) == Interval(r.low, r.high)
  {
    if r.low == r.high {
      RangeTextIsTight(r);
      StripTight(RangeText(r));
      ParsePrinted(r.low);
      assert Interval(r.low, r.high) == {r.low};
    } else {
      PartOfPair(r);
    }
  }

  lemma {:induction false} UnionOfIntervals(ranges: seq<Range>, sets: seq<set<int>>, n: nat)
    requires n <= |ranges| == |sets|
    requires forall k :: 0 <= k < |ranges| ==> sets[k] == Interval(ranges[k].low, ranges[k].high)
    ensures Union(sets, n) == RangeIds(ranges, n)
  {
    if n > 0 { UnionOfIntervals(ranges, sets, n - 1); }
  }

  lemma {:induction false} LowsAreNatural(xs: seq<int>)
    requires StrictlyIncreasing(xs) && forall x :: x in xs ==> x >= 0
    ensures forall k :: 0 <= k < |RangesOf(xs, |xs|)| ==> Natural(RangesOf(xs, |xs|)[k])
  {
    RangesAreSeparated(xs, |xs|);
    assert xs != [] ==> xs[0] in xs;
    var ranges := RangesOf(xs, |xs|);
    forall k | 0 <= k < |ranges| ensures Natural(ranges[k]) { LowAtLeastFirst(ranges, k); }
  }

  lemma {:induction false} LowAtLeastFirst(ranges: seq<Range>, k: nat)
    requires Separated(ranges) && k < |ranges|
    ensures ranges[0].low <= ranges[k].low
  {
    if k > 0 { LowAtLeastFirst(ranges, k - 1); }
  }

  lemma {:induction false} PiecesComeBack(ranges: seq<Range>)
    requires ranges != [] && forall k :: 0 <= k < |ranges| ==> Natural(ranges[k])
    ensures Split(Strip(Join(RangeTexts(ranges), ',')), ',') == RangeTexts(ranges)
  {
    var texts := RangeTexts(ranges);
    forall k | 0 <= k < |texts| ensures Tight(texts[k]) && Lacks(texts[k], ',') {
      assert texts[k] == RangeText(ranges[k]);
      RangeTextIsTight(ranges[k]);
    }
    JoinIsTight(texts);
    SplitJoined(texts, ',');
  }

  lemma {:induction false} RangeIdsAreList(xs: seq<int>)
    requires StrictlyIncreasing(xs)
    ensures SortedIds(RangeIds(RangesOf(xs, |xs|), |RangesOf(xs, |xs|)|)) == xs
  {
    var ranges := RangesOf(xs, |xs|);
    forall y ensures y in RangeIds(ranges, |ranges|) <==> y in xs {
      RangesCover(xs, |xs|, y);
      assert xs[..|xs|] == xs;
    }
    SameElementsSameList(SortedIds(RangeIds(ranges, |ranges|)), xs);
  }

  /** Parsing the printed form of a sorted list of non-negative ids gives the list back. */
  lemma {:induction false} ParsePrintedList(xs: seq<int>)
    requires StrictlyIncreasing(xs) && forall x :: x in xs ==> x >= 0
    ensures ParsedIds(PrintedList(xs)) == xs
  {
    if xs == [] {
      EmptyListIsEmptyText();
    } else {
      LowsAreNatural(xs);
      PiecesComeBack(RangesOf(xs, |xs|));
      var ranges := RangesOf(xs, |xs|);
      forall k | 0 <= k < |ranges| ensures PartSets(RangeTexts(ranges))[k] == Interval(ranges[k].low, ranges[k].high) {
        assert RangeTexts(ranges)[k] == RangeText(ranges[k]);
        PartOfRange(ranges[k]);
      }
      UnionOfIntervals(ranges, PartSets(RangeTexts(ranges)), |ranges|);
      RangeIdsAreList(xs);
    }
  }

  lemma {:induction false} EmptyListIsEmptyText()
    ensures PrintedList([]) == [] && ParsedIds([]) == []
  {
    assert Split([], ',') == [[]];
    assert Union(PartSets([[]]), 1) == Union(PartSets([[]]), 0) + PartSets([[]])[0];
  }

  /** Parsing the printed form of any list of ids gives its distinct non-negative ids in order. */
  lemma {:induction false} ParseUndoesFormat(ids: seq<int>)
    ensures ParsedIds(PrintedList(SortedIds(Wanted(ids)))) == SortedIds(Wanted(ids))
  {
    ParsePrintedList(SortedIds(Wanted(ids)));
  }

  lemma {:induction false} PartIdsAreNatural(parts: seq<string>, n: nat)
    requires n <= |parts|
    ensures forall x :: x in Union(PartSets(parts), n) ==> x >= 0
  {
    if n > 0 { PartIdsAreNatural(parts, n - 1); }
  }

  /** On arbitrary text, printing after parsing is idempotent. */
  lemma {:induction false} PrintAfterParseIsIdempotent(text: string)
    ensures var printed := PrintedList(ParsedIds(text));
            PrintedList(ParsedIds(printed)) == printed
  {
    var parts := Split(Strip(text), ',');
    PartIdsAreNatural(parts, |parts|);
    ParsePrintedList(ParsedIds(text));
  }

  lemma {:induction false} NegativeIdShows(xs: seq<int>)
    requires StrictlyIncreasing(xs)
    ensures PrintedList(xs) != [] && PrintedList(xs)[0] == '-' <==> xs != [] && xs[0] < 0
  {
    if xs != [] {
      RangesAreSeparated(xs, |xs|);
      var texts := RangeTexts(RangesOf(xs, |xs|));
      assert texts[0] == RangeText(RangesOf(xs, |xs|)[0]) && texts[0] != [];
      assert Join(texts, ',')[0] == texts[0][0];
    }
  }

  /** The two printers agree exactly when no id is negative. */
  lemma {:induction false} PrintersAgreeIffNatural(ids: seq<int>)
    ensures PrintedList(SortedIds(Wanted(ids))) == PrintedList(SortedIds(set x | x in ids))
            <==> forall x :: x in ids ==> x >= 0
  {
    var all, wanted := SortedIds(set x | x in ids), SortedIds(Wanted(ids));
    if forall x :: x in ids ==> x >= 0 {
      assert Wanted(ids) == set x | x in ids;
    } else {
      var x :| x in ids && x < 0;
      assert x in all;
      FirstIsLeast(all, x);
      NegativeIdShows(all);
      NegativeIdShows(wanted);
      assert wanted != [] ==> wanted[0] in wanted;
    }
  }

  lemma {:induction false} MinusOnePrints()
    ensures PrintedList([-1]) == "-1" && PrintedList([]) == ""
  {
    assert RangesOf([-1], 1) == [Range(-1, -1)];
    assert Decimal(1) == "1" && Print(-1) == "-1";
    TextsGrow([], Range(-1, -1));
    assert RangeTexts([Range(-1, -1)]) == ["-1"];
  }

  /** The id -1: one printer drops it, the other prints it. */
  lemma {:induction false} NegativeIdSplitsThePrinters()
    ensures PrintedList(SortedIds(Wanted([-1]))) == "" && PrintedList(SortedIds(set x | x in [-1])) == "-1"
  {
    SameElementsSameList(SortedIds(Wanted([-1])), []);
    SameElementsSameList(SortedIds(set x | x in [-1]), [-1]);
    MinusOnePrints();
  }

  // ----- the same, end to end

  method PrintThenParse(ids: seq<int>) returns (back: seq<int>)
    ensures StrictlyIncreasing(back) && forall x :: x in back <==> x in ids && x >= 0
  {
    var text := FormatLinuxCpuList(ids);
    back := ParseLinuxCpuList(text);
    ParseUndoesFormat(ids);
  }

  method PrintBoth(ids: seq<int>) returns (same: bool)
    ensures same <==> forall x :: x in ids ==> x >= 0
  {
    var a := FormatLinuxCpuList(ids);
    var b := CompactCpuList(ids);
    PrintersAgreeIffNatural(ids);
    same := a == b;
  }
}

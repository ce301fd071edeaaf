/** Years as text: datestr and process_dates of gem5/util/find_copyrights.py. */
module Years {
  import opened Common
  import opened Strings

  // ----- Numbers and separators in text

  function Pow10(k: nat): (p: nat) {
    if k == 0 then 1 else 10 * Pow10(k - 1)
  }

  lemma {:induction false} DecimalLength(n: nat)
    ensures n < Pow10(|Decimal(n)|)
    ensures n >= 1 ==> Pow10(|Decimal(n)| - 1) <= n
    decreases n
  {
    if n >= 10 {
      DecimalLength(n / 10);
    }
  }

  lemma {:induction false} ValueBound(s: string)
    requires AllDigits(s)
    ensures Value(s) < Pow10(|s|)
    decreases |s|
  {
    if s != "" {
      ValueBound(s[..|s| - 1]);
    }
  }

  lemma {:induction false} PowMonotone(j: nat, k: nat)
    requires j <= k
    ensures Pow10(j) <= Pow10(k)
    decreases k
  {
    if j < k {
      PowMonotone(j, k - 1);
    }
  }

  /** A number has four digits exactly from 1000 to 9999. */
  lemma {:induction false} FourDigits(n: nat)
    ensures |Decimal(n)| == 4 <==> 1000 <= n <= 9999
    ensures |Decimal(n)| >= 4 <==> 1000 <= n
  {
    DecimalLength(n);
    assert Pow10(3) == 1000 && Pow10(4) == 10000;
    var k := |Decimal(n)|;
    if k <= 3 {
      PowMonotone(k, 3);
    } else {
      PowMonotone(3, k - 1);
      if k > 4 {
        PowMonotone(4, k - 1);
      }
    }
  }

  function DropSpace(s: string): (r: string) {
    if s != "" && IsSpace(s[|s| - 1]) then DropSpace(s[..|s| - 1]) else s
  }

  /** str.strip */
  function Strip(s: string): (r: string) {
    DropSpace(SkipSpace(s))
  }

  function Join(pieces: seq<string>, c: char): (s: string) {
    if pieces == [] then ""
    else if |pieces| == 1 then pieces[0]
    else pieces[0] + [c] + Join(pieces[1..], c)
  }

  /** The first occurrence of a character, or the length. */
  function FirstIndex(s: string, c: char): (k: nat)
    ensures k <= |s| && (k < |s| ==> s[k] == c) && forall i :: 0 <= i < k ==> s[i] != c
  {
    if s == "" || s[0] == c then 0 else 1 + FirstIndex(s[1..], c)
  }

  /** str.split */
  function Split(s: string, c: char): (pieces: seq<string>)
    decreases |s|
  {
    var k := FirstIndex(s, c);
    if k == |s| then [s] else [s[..k]] + Split(s[k + 1..], c)
  }

  lemma {:induction false} FirstIndexAt(s: string, c: char, k: nat)
    requires k <= |s| && (k < |s| ==> s[k] == c) && forall i :: 0 <= i < k ==> s[i] != c
    ensures FirstIndex(s, c) == k
  {
  }

  lemma {:induction false} SplitFirst(piece: string, c: char, rest: string)
    requires c !in piece
    ensures Split(piece + [c] + rest, c) == [piece] + Split(rest, c)
  {
    var s := piece + [c] + rest;
    FirstIndexAt(s, c, |piece|);
    assert s[..|piece|] == piece;
    assert s[|piece| + 1..] == rest;
  }

  lemma {:induction false} SplitOfJoin(pieces: seq<string>, c: char)
    requires pieces != [] && forall i :: 0 <= i < |pieces| ==> c !in pieces[i]
    ensures Split(Join(pieces, c), c) == pieces
    decreases |pieces|
  {
    if |pieces| == 1 {
      FirstIndexAt(pieces[0], c, |pieces[0]|);
    } else {
      SplitFirst(pieces[0], c, Join(pieces[1..], c));
      SplitOfJoin(pieces[1..], c);
    }
  }

  // ----- Parsing

  /** The range a text starts with: four digits, a hyphen, four digits. */
  function RangeMatch(s: string): (r: Option<(nat, nat)>) {
    if |s| >= 4 && AllDigits(s[..4]) then
      var rest := SkipSpace(s[4..]);
      if rest != "" && rest[0] == '-' then
        var t := SkipSpace(rest[1..]);
        if |t| >= 4 && AllDigits(t[..4]) then Some((Value(s[..4]), Value(t[..4]))) else None
      else None
    else None
  }

  /** Python's int of a text: an optional sign and digits, spaces around them. */
  function IntOf(s: string): (r: Option<int>) {
    var t := Strip(s);
    var signed := t != "" && (t[0] == '-' || t[0] == '+');
    var d := if signed then t[1..] else t;
    if d != "" && AllDigits(d) then Some(if signed && t[0] == '-' then 0 - Value(d) else Value(d) as int) else None
  }

  /** The numbers of a range */
  function Span(first: int, last: int): (r: set<int>)
    ensures forall i :: i in r <==> first <= i <= last
    decreases last - first
  {
    if first > last then {} else {first} + Span(first + 1, last)
  }

  function ParseDate(date: string): (r: set<int>) {
    var m := RangeMatch(date);
    if m.Some? then Span(m.value.0, m.value.1)
    else
      var n := IntOf(date);
      if n.Some? then {n.value} else {}
  }

  function ParseAll(pieces: seq<string>): (r: set<int>) {
    if pieces == [] then {} else ParseDate(Strip(pieces[0])) + ParseAll(pieces[1..])
  }

  /** What process_dates computes */
  function Dates(s: string): (r: set<int>) {
    ParseAll(Split(s, ','))
  }

  // ----- Printing

  /** Consecutive years. */
  datatype Run = Run(first: nat, last: nat)

  /** The runs of a run begun and the sorted years behind it. */
  function RunsFrom(first: nat, second: nat, rest: seq<nat>): (r: seq<Run>)
    ensures r != []
    decreases |rest|
  {
    if rest == [] then [Run(first, second)]
    else if rest[0] == second + 1 then RunsFrom(first, rest[0], rest[1..])
    else [Run(first, second)] + RunsFrom(rest[0], rest[0], rest[1..])
  }

  function Runs(dates: seq<nat>): (r: seq<Run>)
    requires dates != []
  {
    RunsFrom(dates[0], dates[0], dates[1..])
  }

  function Piece(run: Run): (s: string) {
    if run.first == run.last then Decimal(run.first) else Decimal(run.first) + "-" + Decimal(run.last)
  }

  function Pieces(runs: seq<Run>): (r: seq<string>)
    ensures |r| == |runs|
  {
    if runs == [] then [] else [Piece(runs[0])] + Pieces(runs[1..])
  }

  lemma {:induction false} PiecesAt(runs: seq<Run>, i: nat)
    requires i < |runs|
    ensures Pieces(runs)[i] == Piece(runs[i])
    decreases i
  {
    if i > 0 {
      PiecesAt(runs[1..], i - 1);
    }
  }

  /** What datestr prints for sorted years */
  function Text(dates: seq<nat>): (s: string)
    requires dates != []
  {
    Join(Pieces(Runs(dates)), ',')
  }

  // ----- The runs printed

  ghost predicate Increasing(dates: seq<nat>) {
    forall i, j :: 0 <= i < j < |dates| ==> dates[i] < dates[j]
  }

  /** The years of a list of runs */
  function Elements(runs: seq<Run>): (r: set<int>) {
    if runs == [] then {} else Span(runs[0].first, runs[0].last) + Elements(runs[1..])
  }

  /** In order, and with a year missing between each and the next. */
  ghost predicate Separated(runs: seq<Run>) {
    && (forall i :: 0 <= i < |runs| ==> runs[i].first <= runs[i].last)
    && (forall i, j :: 0 <= i < j < |runs| ==> runs[i].last + 1 < runs[j].first)
  }

  /** The years of a list, as a set */
  function YearSet(dates: seq<nat>): (r: set<int>)
    ensures forall i :: 0 <= i < |dates| ==> dates[i] in r
  {
    if dates == [] then {} else {dates[0]} + YearSet(dates[1..])
  }

  lemma {:induction false} RunsHold(first: nat, second: nat, rest: seq<nat>)
    requires first <= second
    ensures Elements(RunsFrom(first, second, rest)) == Span(first, second) + YearSet(rest)
    decreases |rest|
  {
    if rest != [] {
      var next := rest[0];
      if next == second + 1 {
        RunsHold(first, next, rest[1..]);
        assert Span(first, next) == Span(first, second) + {next};
      } else {
        RunsHold(next, next, rest[1..]);
        assert ([Run(first, second)] + RunsFrom(next, next, rest[1..]))[1..] == RunsFrom(next, next, rest[1..]);
        assert Span(next, next) == {next};
      }
    }
  }

  lemma {:induction false} RunsSeparated(first: nat, second: nat, rest: seq<nat>)
    requires first <= second && Increasing(rest) && forall i :: 0 <= i < |rest| ==> second < rest[i]
    ensures Separated(RunsFrom(first, second, rest)) && RunsFrom(first, second, rest)[0].first == first
    decreases |rest|
  {
    if rest != [] {
      var next := rest[0];
      if next == second + 1 {
        RunsSeparated(first, next, rest[1..]);
      } else {
        RunsSeparated(next, next, rest[1..]);
      }
    }
  }

  /** The runs printed are the years given; in order, apart, and none could be longer. */
  lemma {:induction false} RunsAreMaximal(dates: seq<nat>)
    requires Increasing(dates) && dates != []
    ensures Elements(Runs(dates)) == YearSet(dates) && Separated(Runs(dates))
    ensures forall i :: 0 <= i < |Runs(dates)| ==>
      var run := Runs(dates)[i]; run.first - 1 !in YearSet(dates) && run.last + 1 !in YearSet(dates)
  {
    RunsHold(dates[0], dates[0], dates[1..]);
    assert Span(dates[0], dates[0]) == {dates[0]};
    RunsSeparated(dates[0], dates[0], dates[1..]);
    var runs := Runs(dates);
    forall i | 0 <= i < |runs|
      ensures runs[i].first - 1 !in YearSet(dates) && runs[i].last + 1 !in YearSet(dates)
    {
      Neighbour(runs, i, runs[i].first - 1);
      Neighbour(runs, i, runs[i].last + 1);
    }
  }

  lemma {:induction false} Neighbour(runs: seq<Run>, i: nat, y: int)
    requires Separated(runs) && i < |runs| && (y == runs[i].first - 1 || y == runs[i].last + 1)
    ensures y !in Elements(runs)
  {
    ElementIff(runs, y);
    forall j | 0 <= j < |runs|
      ensures !(runs[j].first <= y <= runs[j].last)
    {
      assert j < i ==> runs[j].last + 1 < runs[i].first;
      assert i < j ==> runs[i].last + 1 < runs[j].first;
    }
  }

  lemma {:induction false} ElementIff(runs: seq<Run>, y: int)
    ensures y in Elements(runs) <==> exists i :: 0 <= i < |runs| && runs[i].first <= y <= runs[i].last
    decreases |runs|
  {
    if runs != [] {
      ElementIff(runs[1..], y);
      if exists i :: 0 <= i < |runs| && runs[i].first <= y <= runs[i].last {
        var i :| 0 <= i < |runs| && runs[i].first <= y <= runs[i].last;
        assert i > 0 ==> runs[i] == runs[1..][i - 1];
      }
    }
  }

  // ----- Reading back what was printed

  /** A run whose text is read back: one year, or two of four digits. */
  predicate Readable(run: Run) {
    run.first == run.last || (1000 <= run.first && run.last <= 9999)
  }

  lemma {:induction false} StripClean(s: string)
    requires s == "" || (!IsSpace(s[0]) && !IsSpace(s[|s| - 1]))
    ensures SkipSpace(s) == s && Strip(s) == s
  {
  }

  lemma {:induction false} IntOfDigits(s: string)
    requires s != "" && AllDigits(s)
    ensures IntOf(s) == Some(Value(s))
  {
    StripClean(s);
  }

  /** A hyphen between digits is no number. */
  lemma {:induction false} IntOfHyphen(a: string, b: string)
    requires a != "" && b != "" && AllDigits(a) && AllDigits(b)
    ensures IntOf(a + "-" + b) == None
  {
    var s := a + "-" + b;
    StripClean(s);
    assert s[|a|] == '-';
  }

  lemma {:induction false} MatchOfHyphen(a: string, b: string)
    requires a != "" && b != "" && AllDigits(a) && AllDigits(b)
    ensures RangeMatch(a + "-" + b) ==
      if |a| == 4 && |b| >= 4 then Some((Value(a), Value(b[..4]))) else None
  {
    var s := a + "-" + b;
    if |a| < 4 {
      assert |s| >= 4 ==> s[..4][|a|] == '-';
    } else {
      assert s[..4] == a[..4];
      if |a| == 4 {
        assert s[4..] == "-" + b && ("-" + b)[1..] == b && a[..4] == a;
        StripClean("-" + b);
        StripClean(b);
      } else {
        assert s[4] == a[4];
        StripClean(s[4..]);
      }
    }
  }

  lemma {:induction false} NoMatchOfDigits(s: string)
    requires AllDigits(s)
    ensures RangeMatch(s) == None
  {
    if |s| > 4 {
      StripClean(s[4..]);
    }
  }

  /** What the text of a run is read as: the run if it is readable, else only years of it, without
      its last. */
  lemma {:induction false} PieceRead(run: Run)
    requires run.first <= run.last
    ensures var r := ParseDate(Piece(run)); var years := Span(run.first, run.last);
      if Readable(run) then r == years else r <= years && run.last !in r
  {
    var a, b := Decimal(run.first), Decimal(run.last);
    ValueOfDecimal(run.first);
    if run.first == run.last {
      NoMatchOfDigits(a);
      IntOfDigits(a);
    } else {
      FourDigits(run.first);
      FourDigits(run.last);
      MatchOfHyphen(a, b);
      IntOfHyphen(a, b);
      if |b| == 4 {
        ValueOfDecimal(run.last);
        assert b[..4] == b;
      } else if |b| > 4 {
        ValueBound(b[..4]);
        assert Pow10(4) == 10000;
      }
    }
  }

  lemma {:induction false} PieceClean(run: Run)
    ensures ',' !in Piece(run) && Strip(Piece(run)) == Piece(run)
  {
    StripClean(Piece(run));
  }

  lemma {:induction false} PiecesRead(runs: seq<Run>, y: int)
    ensures y in ParseAll(Pieces(runs)) <==> exists i :: 0 <= i < |runs| && y in ParseDate(Piece(runs[i]))
    decreases |runs|
  {
    if runs != [] {
      PiecesRead(runs[1..], y);
      PieceClean(runs[0]);
      assert Pieces(runs)[1..] == Pieces(runs[1..]);
      if exists i :: 0 <= i < |runs| && y in ParseDate(Piece(runs[i])) {
        var i :| 0 <= i < |runs| && y in ParseDate(Piece(runs[i]));
        assert i > 0 ==> runs[i] == runs[1..][i - 1];
      }
    }
  }

  /** Whether a year is read from the text of a run that can be read */
  lemma {:induction false} YearRead(run: Run, y: int)
    requires run.first <= run.last
    ensures y in ParseDate(Piece(run)) ==> run.first <= y <= run.last
    ensures Readable(run) && run.first <= y <= run.last ==> y in ParseDate(Piece(run))
    ensures !Readable(run) ==> run.last !in ParseDate(Piece(run))
  {
    PieceRead(run);
  }

  lemma {:induction false} AllRead(runs: seq<Run>, y: int)
    requires Separated(runs) && forall i :: 0 <= i < |runs| ==> Readable(runs[i])
    ensures y in ParseAll(Pieces(runs)) <==> y in Elements(runs)
  {
    PiecesRead(runs, y);
    ElementIff(runs, y);
    forall i | 0 <= i < |runs|
      ensures y in ParseDate(Piece(runs[i])) <==> runs[i].first <= y <= runs[i].last
    {
      YearRead(runs[i], y);
    }
  }

  lemma {:induction false} LastNotRead(runs: seq<Run>, k: nat)
    requires Separated(runs) && k < |runs| && !Readable(runs[k])
    ensures runs[k].last !in ParseAll(Pieces(runs)) && runs[k].last in Elements(runs)
  {
    var y := runs[k].last;
    PiecesRead(runs, y);
    ElementIff(runs, y);
    forall i | 0 <= i < |runs|
      ensures y !in ParseDate(Piece(runs[i]))
    {
      NotReadFrom(runs, k, i);
    }
  }

  lemma {:induction false} NotReadFrom(runs: seq<Run>, k: nat, i: nat)
    requires Separated(runs) && k < |runs| && i < |runs| && !Readable(runs[k])
    ensures runs[k].last !in ParseDate(Piece(runs[i]))
  {
    YearRead(runs[i], runs[k].last);
    assert i < k ==> runs[i].last + 1 < runs[k].first;
    assert k < i ==> runs[k].last + 1 < runs[i].first;
  }

  lemma {:induction false} RunsReadIff(runs: seq<Run>)
    requires Separated(runs)
    ensures ParseAll(Pieces(runs)) == Elements(runs) <==> forall i :: 0 <= i < |runs| ==> Readable(runs[i])
  {
    if k :| 0 <= k < |runs| && !Readable(runs[k]) {
      LastNotRead(runs, k);
    } else {
      forall y
        ensures y in ParseAll(Pieces(runs)) <==> y in Elements(runs)
      {
        AllRead(runs, y);
      }
    }
  }

  /** Printing years and reading them back gives the same years exactly when every run of more
      than one year lies between 1000 and 9999. */
  lemma {:induction false} RoundTripIff(dates: seq<nat>)
    requires Increasing(dates) && dates != []
    ensures Dates(Text(dates)) == YearSet(dates) <==> forall i :: 0 <= i < |Runs(dates)| ==> Readable(Runs(dates)[i])
  {
    var runs := Runs(dates);
    RunsAreMaximal(dates);
    RunsReadIff(runs);
    forall i | 0 <= i < |runs|
      ensures ',' !in Pieces(runs)[i]
    {
      PiecesAt(runs, i);
      PieceClean(runs[i]);
    }
    SplitOfJoin(Pieces(runs), ',');
  }

  /** 9999 and 10000 are printed as "9999-10000", read as the empty range from 9999 to 1000. */
  lemma {:induction false} FiveDigitsCanFail()
    ensures Runs([9999, 10000]) == [Run(9999, 10000)]
    ensures Dates(Text([9999, 10000])) != YearSet([9999, 10000])
  {
    var dates := [9999, 10000];
    assert dates[1..] == [10000] && [10000][1..] == [];
    RoundTripIff(dates);
    assert !Readable(Runs(dates)[0]);
  }

  /** In particular for all years of four digits. */
  lemma {:induction false} FourDigitYears(dates: seq<nat>)
    requires Increasing(dates) && dates != [] && forall i :: 0 <= i < |dates| ==> 1000 <= dates[i] <= 9999
    ensures Dates(Text(dates)) == YearSet(dates)
  {
    RoundTripIff(dates);
    RunsAreMaximal(dates);
    var runs := Runs(dates);
    forall i | 0 <= i < |runs|
      ensures Readable(runs[i])
    {
      ElementIff(runs, runs[i].first);
      ElementIff(runs, runs[i].last);
      YearSetBound(dates, runs[i].first);
      YearSetBound(dates, runs[i].last);
    }
  }

  lemma {:induction false} YearSetBound(dates: seq<nat>, y: int)
    requires y in YearSet(dates) && forall i :: 0 <= i < |dates| ==> 1000 <= dates[i] <= 9999
    ensures 1000 <= y <= 9999
    decreases |dates|
  {
    if y != dates[0] {
      YearSetBound(dates[1..], y);
    }
  }

  // ----- Reading what others wrote: spaces

  predicate AllSpace(s: string) {
    forall i :: 0 <= i < |s| ==> IsSpace(s[i])
  }

  lemma {:induction false} SkipSpaces(a: string, s: string)
    requires AllSpace(a)
    ensures SkipSpace(a + s) == SkipSpace(s)
    decreases |a|
  {
    if a == "" {
      assert a + s == s;
    } else {
      assert (a + s)[1..] == a[1..] + s;
      SkipSpaces(a[1..], s);
    }
  }

  lemma {:induction false} DropSpaces(s: string, b: string)
    requires AllSpace(b)
    ensures DropSpace(s + b) == DropSpace(s)
    decreases |b|
  {
    if b == "" {
      assert s + b == s;
    } else {
      assert (s + b)[..|s + b| - 1] == s + b[..|b| - 1];
      DropSpaces(s, b[..|b| - 1]);
    }
  }

  /** Spaces around a text that has none at its ends are stripped. */
  lemma {:induction false} StripSpaces(a: string, s: string, b: string)
    requires AllSpace(a) && AllSpace(b) && s != "" && !IsSpace(s[0]) && !IsSpace(s[|s| - 1])
    ensures Strip(a + s + b) == s
  {
    assert a + s + b == a + (s + b);
    SkipSpaces(a, s + b);
    DropSpaces(s, b);
  }

  /** Spaces around the hyphen of a range are skipped. */
  lemma {:induction false} MatchOfSpaced(a: string, left: string, right: string, b: string)
    requires |a| == 4 == |b| && AllDigits(a) && AllDigits(b) && AllSpace(left) && AllSpace(right)
    ensures RangeMatch(a + left + "-" + right + b) == Some((Value(a), Value(b)))
  {
    var s := a + left + "-" + right + b;
    assert s[..4] == a && s[4..] == left + ("-" + (right + b));
    SkipSpaces(left, "-" + (right + b));
    assert ("-" + (right + b))[1..] == right + b;
    SkipSpaces(right, b);
    assert b[..4] == b;
  }

  /** Spaces before and behind a piece, and before and behind its hyphen */
  datatype Spaces = Spaces(before: string, left: string, right: string, behind: string) {
    predicate Valid() {
      AllSpace(before) && AllSpace(left) && AllSpace(right) && AllSpace(behind)
    }
  }

  function SpacedPiece(run: Run, sp: Spaces): (s: string) {
    if run.first == run.last then sp.before + Decimal(run.first) + sp.behind
    else sp.before + (Decimal(run.first) + sp.left + "-" + sp.right + Decimal(run.last)) + sp.behind
  }

  function SpacedPieces(runs: seq<Run>, sps: seq<Spaces>): (r: seq<string>)
    requires |sps| == |runs|
    ensures |r| == |runs|
  {
    if runs == [] then [] else [SpacedPiece(runs[0], sps[0])] + SpacedPieces(runs[1..], sps[1..])
  }

  lemma {:induction false} SpacedYear(run: Run, sp: Spaces)
    requires run.first == run.last && sp.Valid()
    ensures ParseDate(Strip(SpacedPiece(run, sp))) == Span(run.first, run.last)
  {
    var a := Decimal(run.first);
    ValueOfDecimal(run.first);
    StripSpaces(sp.before, a, sp.behind);
    NoMatchOfDigits(a);
    IntOfDigits(a);
  }

  lemma {:induction false} SpacedRange(run: Run, sp: Spaces)
    requires 1000 <= run.first < run.last <= 9999 && sp.Valid()
    ensures ParseDate(Strip(SpacedPiece(run, sp))) == Span(run.first, run.last)
  {
    var a, b := Decimal(run.first), Decimal(run.last);
    var s := a + sp.left + "-" + sp.right + b;
    FourDigits(run.first);
    FourDigits(run.last);
    assert RangeMatch(s) == Some((run.first, run.last)) by {
      ValueOfDecimal(run.first);
      ValueOfDecimal(run.last);
      MatchOfSpaced(a, sp.left, sp.right, b);
    }
    assert Strip(sp.before + s + sp.behind) == s by {
      assert s[0] == a[0] && s[|s| - 1] == b[|b| - 1];
      StripSpaces(sp.before, s, sp.behind);
    }
  }

  /** A run that can be read is read as its years, however it is spaced. */
  lemma {:induction false} SpacedPieceRead(run: Run, sp: Spaces)
    requires run.first <= run.last && Readable(run) && sp.Valid()
    ensures ParseDate(Strip(SpacedPiece(run, sp))) == Span(run.first, run.last)
  {
    if run.first == run.last {
      SpacedYear(run, sp);
    } else {
      SpacedRange(run, sp);
    }
  }

  lemma {:induction false} SpacedNoComma(runs: seq<Run>, sps: seq<Spaces>, i: nat)
    requires |sps| == |runs| && i < |runs| && forall j :: 0 <= j < |sps| ==> sps[j].Valid()
    ensures ',' !in SpacedPieces(runs, sps)[i]
    decreases i
  {
    if i > 0 {
      SpacedNoComma(runs[1..], sps[1..], i - 1);
    } else {
      assert sps[0].Valid();
    }
  }

  lemma {:induction false} SpacedPiecesRead(runs: seq<Run>, sps: seq<Spaces>)
    requires |sps| == |runs| && (forall j :: 0 <= j < |sps| ==> sps[j].Valid())
    requires forall i :: 0 <= i < |runs| ==> runs[i].first <= runs[i].last && Readable(runs[i])
    ensures ParseAll(SpacedPieces(runs, sps)) == Elements(runs)
    decreases |runs|
  {
    if runs != [] {
      SpacedPieceRead(runs[0], sps[0]);
      SpacedPiecesRead(runs[1..], sps[1..]);
      assert SpacedPieces(runs, sps)[1..] == SpacedPieces(runs[1..], sps[1..]);
    }
  }

  /** Years and ranges of four digits with commas between them are read, whatever the spaces. */
  lemma {:induction false} SpacesIgnored(runs: seq<Run>, sps: seq<Spaces>)
    requires runs != [] && |sps| == |runs| && (forall j :: 0 <= j < |sps| ==> sps[j].Valid())
    requires forall i :: 0 <= i < |runs| ==> runs[i].first <= runs[i].last && Readable(runs[i])
    ensures Dates(Join(SpacedPieces(runs, sps), ',')) == Elements(runs)
  {
    forall i | 0 <= i < |runs| ensures ',' !in SpacedPieces(runs, sps)[i] {
      SpacedNoComma(runs, sps, i);
    }
    SplitOfJoin(SpacedPieces(runs, sps), ',');
    SpacedPiecesRead(runs, sps);
  }

  /** A text without a digit is no year. */
  lemma {:induction false} NoDigits(s: string)
    requires forall i :: 0 <= i < |s| ==> !IsDigit(s[i])
    ensures ParseDate(s) == {}
  {
    if |s| >= 4 {
      assert !IsDigit(s[..4][0]);
    }
    StripPart(s);
    var t := Strip(s);
    if |t| > 1 {
      assert !IsDigit(t[1..][0]);
    }
  }

  lemma {:induction false} StripPart(s: string)
    requires forall i :: 0 <= i < |s| ==> !IsDigit(s[i])
    ensures forall i :: 0 <= i < |Strip(s)| ==> !IsDigit(Strip(s)[i])
  {
    SkipPart(s);
    DropPart(SkipSpace(s));
  }

  lemma {:induction false} SkipPart(s: string)
    requires forall i :: 0 <= i < |s| ==> !IsDigit(s[i])
    ensures forall i :: 0 <= i < |SkipSpace(s)| ==> !IsDigit(SkipSpace(s)[i])
    decreases |s|
  {
    if s != "" {
      SkipPart(s[1..]);
    }
  }

  lemma {:induction false} DropPart(s: string)
    requires forall i :: 0 <= i < |s| ==> !IsDigit(s[i])
    ensures forall i :: 0 <= i < |DropSpace(s)| ==> !IsDigit(DropSpace(s)[i])
    decreases |s|
  {
    if s != "" {
      DropPart(s[..|s| - 1]);
    }
  }

  // ----- The programs

  method AddRange(output: set<int>, f: int, l: int) returns (r: set<int>)
    ensures r == output + Span(f, l)
  {
    var i := f;
    r := output;
    while i < l + 1
      invariant f <= i && (i <= l + 1 || i == f)
      invariant r == output + Span(f, i - 1)
    {
      r := r + {i};
      assert Span(f, i) == Span(f, i - 1) + {i};
      i := i + 1;
    }
    assert Span(f, i - 1) == Span(f, l);
  }

  /** process_dates */
  method ProcessDates(text: string) returns (output: set<int>)
    ensures output == Dates(text)
  {
    var dates := Split(text, ',');
    output := {};
    for k := 0 to |dates|
      invariant output + ParseAll(dates[k..]) == ParseAll(dates)
    {
      var date := Strip(dates[k]);
      assert dates[k..][1..] == dates[k + 1..];
      var m := RangeMatch(date);
      if m.Some? {
        output := AddRange(output, m.value.0, m.value.1);
      } else {
        var n := IntOf(date);
        if n.Some? {
          output := output + {n.value};
        }
      }
    }
  }

  lemma {:induction false} PiecesSnoc(runs: seq<Run>, run: Run)
    ensures Pieces(runs + [run]) == Pieces(runs) + [Piece(run)]
    decreases |runs|
  {
    if runs != [] {
      PiecesSnoc(runs[1..], run);
      assert (runs + [run])[1..] == runs[1..] + [run];
    }
  }

  /** datestr, of the years in order; None for the exception an empty set raises */
  method DateStr(dates: seq<nat>) returns (r: Option<string>)
    ensures r == if dates == [] then None else Some(Text(dates))
  {
    if dates == [] {
      return None;
    }
    var output: seq<string> := [];
    var first, second := dates[0], dates[0];
    ghost var runs: seq<Run> := [];
    var left := dates[1..];
    while left != []
      invariant output == Pieces(runs)
      invariant runs + RunsFrom(first, second, left) == Runs(dates)
      decreases |left|
    {
      var next := left[0];
      left := left[1..];
      if next == second + 1 {
        second := next;
      } else {
        PiecesSnoc(runs, Run(first, second));
        output := output + [Piece(Run(first, second))];
        runs := runs + [Run(first, second)];
        first, second := next, next;
      }
    }
    output := output + [Piece(Run(first, second))];
    PiecesSnoc(runs, Run(first, second));
    r := Some(Join(output, ','));
  }
}

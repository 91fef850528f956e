/**
 * The flat layout file of main.c (written by `dump_coords`, read back in
 * `main`):
 *
 *     <n>
 *     <fold 0>,<fold 1>,...,<fold n-2>
 *     <offset 0 x>,<offset 0 y>,...,<offset n-2 x>,<offset n-2 y>
 *
 * each line ending in a newline, folds written as 0 or 1.  Numbers are
 * decimal with an optional leading '-', and, when read back, without
 * leading zeros.
 */
module LayoutText {
  import opened Wrappers
  import opened Geometry

  // ---------------------------------------------------------------------
  // Decimal integers (printf "%i" and the strict reading of fscanf "%i")
  // ---------------------------------------------------------------------

  predicate IsDigit(ch: char) { '0' <= ch <= '9' }

  predicate AllDigits(s: string) { forall i :: 0 <= i < |s| ==> IsDigit(s[i]) }

  function DigitChar(d: int): char
    requires 0 <= d < 10
  {
    ('0' as int + d) as char
  }

  function DigitValue(ch: char): int
    requires IsDigit(ch)
  {
    ch as int - '0' as int
  }

  /** The decimal digits of x, most significant first. */
  function NatToString(x: nat): (s: string)
    ensures |s| >= 1 && AllDigits(s)
    ensures x == 0 ==> s == "0"
    ensures x > 0 ==> s[0] != '0'
    decreases x
  {
    if x < 10 then [DigitChar(x)] else NatToString(x / 10) + [DigitChar(x % 10)]
  }

  /** The number a string of decimal digits stands for. */
  function DigitsValue(s: string): nat
    requires AllDigits(s)
    decreases |s|
  {
    if |s| == 0 then 0 else 10 * DigitsValue(s[..|s| - 1]) + DigitValue(s[|s| - 1])
  }

  lemma {:induction false} NatToStringValue(x: nat)
    ensures DigitsValue(NatToString(x)) == x
    decreases x
  {
    if x >= 10 {
      var s := NatToString(x);
      assert s[..|s| - 1] == NatToString(x / 10);
      NatToStringValue(x / 10);
    }
  }

  /** What printf's "%i" writes. */
  function IntToString(x: int): (s: string)
    ensures |s| >= 1
    ensures forall i :: 0 <= i < |s| ==> s[i] == '-' || IsDigit(s[i])
  {
    if x < 0 then "-" + NatToString(-x) else NatToString(x)
  }

  /** A non-empty run of digits without a redundant leading zero. */
  predicate IsNumeral(s: string)
  {
    |s| >= 1 && AllDigits(s) && (|s| == 1 || s[0] != '0')
  }

  /** A strict reading of one decimal integer: an optional '-' and a numeral, nothing else. */
  function ParseInt(s: string): Option<int>
  {
    if |s| >= 1 && s[0] == '-' then
      if IsNumeral(s[1..]) then Some(-(DigitsValue(s[1..]) as int)) else None
    else if IsNumeral(s) then Some(DigitsValue(s))
    else None
  }

  /** Reading back what "%i" wrote gives the number again. */
  lemma IntRoundTrip(x: int)
    ensures ParseInt(IntToString(x)) == Some(x)
  {
    if x < 0 {
      var s := IntToString(x);
      assert s[1..] == NatToString(-x);
      NatToStringValue(-x);
    } else {
      NatToStringValue(x);
    }
  }

  // ---------------------------------------------------------------------
  // Separated lists
  // ---------------------------------------------------------------------

  /** Every part followed by the separator. */
  function Terminated(parts: seq<string>, sep: char): string
    decreases |parts|
  {
    if parts == [] then "" else Terminated(parts[..|parts| - 1], sep) + parts[|parts| - 1] + [sep]
  }

  /** Terminating one more part appends it and a separator. */
  lemma TerminatedSnoc(parts: seq<string>, k: nat, sep: char)
    requires k < |parts|
    ensures Terminated(parts[..k + 1], sep) == Terminated(parts[..k], sep) + parts[k] + [sep]
  {
    assert parts[..k + 1][..k] == parts[..k];
  }

  /** Terminating two more parts appends each with its separator. */
  lemma TerminatedPair(parts: seq<string>, k: nat, a: string, b: string, sep: char)
    requires k + 1 < |parts| && parts[k] == a && parts[k + 1] == b
    ensures Terminated(parts[..k + 2], sep) == Terminated(parts[..k], sep) + a + [sep] + b + [sep]
  {
    TerminatedSnoc(parts, k, sep);
    TerminatedSnoc(parts, k + 1, sep);
  }

  /** The parts with the separator between consecutive ones. */
  function Join(parts: seq<string>, sep: char): string
    requires |parts| >= 1
  {
    Terminated(parts[..|parts| - 1], sep) + parts[|parts| - 1]
  }

  /** The pieces of s between separators (one more piece than there are separators). */
  function Split(s: string, sep: char): (r: seq<string>)
    ensures |r| >= 1
    decreases |s|
  {
    if |s| == 0 then [""]
    else
      var rest := Split(s[1..], sep);
      if s[0] == sep then [""] + rest else [[s[0]] + rest[0]] + rest[1..]
  }

  lemma {:induction false} TerminatedCons(p: string, ps: seq<string>, sep: char)
    ensures Terminated([p] + ps, sep) == p + [sep] + Terminated(ps, sep)
    decreases |ps|
  {
    if ps != [] {
      var k := |ps| - 1;
      assert ([p] + ps)[..|ps|] == [p] + ps[..k];
      TerminatedCons(p, ps[..k], sep);
    }
  }

  lemma {:induction false} JoinCons(parts: seq<string>, sep: char)
    requires |parts| >= 2
    ensures Join(parts, sep) == parts[0] + [sep] + Join(parts[1..], sep)
  {
    var k := |parts| - 1;
    assert parts[..k] == [parts[0]] + parts[1..][..k - 1];
    TerminatedCons(parts[0], parts[1..][..k - 1], sep);
  }

  lemma {:induction false} SplitNoSeparator(p: string, sep: char)
    requires sep !in p
    ensures Split(p, sep) == [p]
    decreases |p|
  {
    if |p| > 0 {
      SplitNoSeparator(p[1..], sep);
      assert [p[0]] + p[1..] == p;
    }
  }

  lemma {:induction false} SplitAtFirstSeparator(p: string, t: string, sep: char)
    requires sep !in p
    ensures Split(p + [sep] + t, sep) == [p] + Split(t, sep)
    decreases |p|
  {
    var s := p + [sep] + t;
    if |p| == 0 {
      assert s[1..] == t;
    } else {
      assert s[1..] == p[1..] + [sep] + t;
      SplitAtFirstSeparator(p[1..], t, sep);
      assert [p[0]] + p[1..] == p;
    }
  }

  /** Splitting undoes joining, as long as no part contains the separator. */
  lemma {:induction false} SplitJoin(parts: seq<string>, sep: char)
    requires |parts| >= 1
    requires forall i :: 0 <= i < |parts| ==> sep !in parts[i]
    ensures Split(Join(parts, sep), sep) == parts
    decreases |parts|
  {
    if |parts| == 1 {
      assert parts[..0] == [];
      assert Join(parts, sep) == parts[0];
      SplitNoSeparator(parts[0], sep);
    } else {
      JoinCons(parts, sep);
      SplitAtFirstSeparator(parts[0], Join(parts[1..], sep), sep);
      SplitJoin(parts[1..], sep);
      assert [parts[0]] + parts[1..] == parts;
    }
  }

  lemma {:induction false} TerminatedAvoids(parts: seq<string>, sep: char, ch: char)
    requires ch != sep
    requires forall i :: 0 <= i < |parts| ==> ch !in parts[i]
    ensures ch !in Terminated(parts, sep)
    decreases |parts|
  {
    if parts != [] {
      TerminatedAvoids(parts[..|parts| - 1], sep, ch);
    }
  }

  lemma JoinAvoids(parts: seq<string>, sep: char, ch: char)
    requires |parts| >= 1 && ch != sep
    requires forall i :: 0 <= i < |parts| ==> ch !in parts[i]
    ensures ch !in Join(parts, sep)
  {
    TerminatedAvoids(parts[..|parts| - 1], sep, ch);
  }

  lemma IntToStringAvoids(x: int)
    ensures ',' !in IntToString(x) && '\n' !in IntToString(x)
  {
    var s := IntToString(x);
    forall i | 0 <= i < |s| ensures s[i] != ',' && s[i] != '\n' {
    }
  }

  // ---------------------------------------------------------------------
  // The layout file
  // ---------------------------------------------------------------------

  /** The fold flags and offsets of every junction. */
  datatype Layout = Layout(folds: seq<bool>, offsets: seq<Coord>)

  /** A fold flag as "%i" prints a C bool. */
  function FoldText(b: bool): string { if b then "1" else "0" }

  function FoldStrings(folds: seq<bool>): (r: seq<string>)
    ensures |r| == |folds|
  {
    seq(|folds|, i requires 0 <= i < |folds| => FoldText(folds[i]))
  }

  /** Both numbers of every offset, x before y, in junction order. */
  function OffsetStrings(offsets: seq<Coord>): (r: seq<string>)
    ensures |r| == 2 * |offsets|
  {
    seq(2 * |offsets|, i requires 0 <= i < 2 * |offsets| =>
      IntToString(if i % 2 == 0 then offsets[i / 2].x else offsets[i / 2].y))
  }

  /** The text `dump_coords` writes for an n-image session (n = |folds| + 1 >= 2). */
  function Serialize(folds: seq<bool>, offsets: seq<Coord>): string
    requires |folds| == |offsets| >= 1
  {
    IntToString(|folds| + 1) + "\n" +
    Join(FoldStrings(folds), ',') + "\n" +
    Join(OffsetStrings(offsets), ',') + "\n"
  }

  /** How reading a layout file for an n-image session ends. */
  datatype LoadResult = Loaded(layout: Layout) | WrongCount | Malformed

  /** Every piece read as an integer, or None if one of them is not one. */
  function ParseAll(parts: seq<string>): (r: Option<seq<int>>)
    ensures r.Some? ==> |r.value| == |parts|
    ensures r.Some? <==> forall i :: 0 <= i < |parts| ==> ParseInt(parts[i]).Some?
    ensures r.Some? ==> forall i :: 0 <= i < |parts| ==> ParseInt(parts[i]) == Some(r.value[i])
  {
    if forall i :: 0 <= i < |parts| ==> ParseInt(parts[i]).Some? then
      Some(seq(|parts|, i requires 0 <= i < |parts| => ParseInt(parts[i]).value))
    else None
  }

  /** Consecutive numbers taken two at a time as (x, y). */
  function Pairs(vs: seq<int>): (r: seq<Coord>)
    requires |vs| % 2 == 0
    ensures |r| == |vs| / 2
  {
    seq(|vs| / 2, k requires 0 <= k < |vs| / 2 => Coord(vs[2 * k], vs[2 * k + 1]))
  }

  /**
   * Reading a layout file for an n-image session: the first line must be the
   * number n (anything else, an unreadable count included, is the count
   * mismatch the source reports), then the fold line and the offset line.
   * A fold value is true when it is non-zero, as the C assignment to a bool.
   */
  function ParseLayout(text: string, n: int): (r: LoadResult)
    ensures r.Loaded? ==> |r.layout.folds| == n - 1 && |r.layout.offsets| == n - 1
  {
    var lines := Split(text, '\n');
    match ParseInt(lines[0])
    case None => WrongCount
    case Some(count) =>
      if count != n then WrongCount
      else if |lines| != 4 || lines[3] != "" then Malformed
      else
        match (ParseAll(Split(lines[1], ',')), ParseAll(Split(lines[2], ',')))
        case (Some(fs), Some(os)) =>
          if |fs| == n - 1 && |os| == 2 * (n - 1) then
            Loaded(Layout(seq(|fs|, i requires 0 <= i < |fs| => fs[i] != 0), Pairs(os)))
          else Malformed
        case _ => Malformed
  }

  /** The calloc'ed layout: no folds, all offsets zero. */
  function ZeroLayout(n: nat): (l: Layout)
    requires n >= 1
    ensures |l.folds| == n - 1 && |l.offsets| == n - 1
    ensures forall i :: 0 <= i < n - 1 ==> !l.folds[i] && l.offsets[i] == Coord(0, 0)
  {
    Layout(seq(n - 1, _ => false), seq(n - 1, _ => Coord(0, 0)))
  }

  /**
   * The layout a session starts with: the file's when one is given and reads
   * back with the right count, otherwise the zero layout.
   */
  function InitialLayout(file: Option<string>, n: nat): (l: Layout)
    requires n >= 1
    ensures |l.folds| == n - 1 && |l.offsets| == n - 1
    ensures file.None? ==> l == ZeroLayout(n)
    ensures file.Some? && !ParseLayout(file.value, n).Loaded? ==> l == ZeroLayout(n)
    ensures file.Some? && ParseLayout(file.value, n).Loaded? ==> l == ParseLayout(file.value, n).layout
  {
    match file
    case None => ZeroLayout(n)
    case Some(text) =>
      match ParseLayout(text, n)
      case Loaded(l) => l
      case _ => ZeroLayout(n)
  }

  lemma SerializeLines(folds: seq<bool>, offsets: seq<Coord>)
    requires |folds| == |offsets| >= 1
    ensures Split(Serialize(folds, offsets), '\n') ==
      [IntToString(|folds| + 1), Join(FoldStrings(folds), ','), Join(OffsetStrings(offsets), ','), ""]
  {
    var a, b, c := IntToString(|folds| + 1), Join(FoldStrings(folds), ','), Join(OffsetStrings(offsets), ',');
    IntToStringAvoids(|folds| + 1);
    forall i | 0 <= i < |folds| ensures '\n' !in FoldStrings(folds)[i] {
    }
    JoinAvoids(FoldStrings(folds), ',', '\n');
    forall i | 0 <= i < 2 * |offsets| ensures '\n' !in OffsetStrings(offsets)[i] {
      IntToStringAvoids(if i % 2 == 0 then offsets[i / 2].x else offsets[i / 2].y);
    }
    JoinAvoids(OffsetStrings(offsets), ',', '\n');
    var t2 := c + ['\n'] + "";
    var t1 := b + ['\n'] + t2;
    assert Serialize(folds, offsets) == a + ['\n'] + t1;
    SplitAtFirstSeparator(a, t1, '\n');
    SplitAtFirstSeparator(b, t2, '\n');
    SplitAtFirstSeparator(c, "", '\n');
    assert Split("", '\n') == [""];
  }

  lemma FoldsRoundTrip(folds: seq<bool>)
    requires |folds| >= 1
    ensures Split(Join(FoldStrings(folds), ','), ',') == FoldStrings(folds)
    ensures ParseAll(FoldStrings(folds)).Some?
    ensures var fs := ParseAll(FoldStrings(folds)).value;
      seq(|fs|, i requires 0 <= i < |fs| => fs[i] != 0) == folds
  {
    var parts := FoldStrings(folds);
    forall i | 0 <= i < |parts| ensures ParseInt(parts[i]) == Some(if folds[i] then 1 else 0) {
      IntRoundTrip(if folds[i] then 1 else 0);
    }
    SplitJoin(parts, ',');
  }

  /** Junction i's offset is printed at positions 2i (x) and 2i+1 (y). */
  lemma OffsetStringsAt(offsets: seq<Coord>, i: nat)
    requires i < |offsets|
    ensures var os := OffsetStrings(offsets);
      os[2 * i] == IntToString(offsets[i].x) && os[2 * i + 1] == IntToString(offsets[i].y)
  {
    assert (2 * i) / 2 == i && (2 * i) % 2 == 0;
    assert (2 * i + 1) / 2 == i && (2 * i + 1) % 2 == 1;
  }

  /** Each printed offset number reads back as the number it prints. */
  lemma OffsetStringsParse(offsets: seq<Coord>)
    ensures var parts := OffsetStrings(offsets);
      forall i :: 0 <= i < |parts| ==>
        ParseInt(parts[i]) == Some(if i % 2 == 0 then offsets[i / 2].x else offsets[i / 2].y)
  {
    var parts := OffsetStrings(offsets);
    forall i | 0 <= i < |parts|
      ensures ParseInt(parts[i]) == Some(if i % 2 == 0 then offsets[i / 2].x else offsets[i / 2].y)
    {
      IntRoundTrip(if i % 2 == 0 then offsets[i / 2].x else offsets[i / 2].y);
    }
  }

  /** No printed offset number contains the comma that separates them. */
  lemma OffsetStringsAvoid(offsets: seq<Coord>)
    ensures var parts := OffsetStrings(offsets);
      forall i :: 0 <= i < |parts| ==> ',' !in parts[i]
  {
    var parts := OffsetStrings(offsets);
    forall i | 0 <= i < |parts|
      ensures ',' !in parts[i]
    {
      IntToStringAvoids(if i % 2 == 0 then offsets[i / 2].x else offsets[i / 2].y);
    }
  }

  lemma OffsetsRoundTrip(offsets: seq<Coord>)
    requires |offsets| >= 1
    ensures Split(Join(OffsetStrings(offsets), ','), ',') == OffsetStrings(offsets)
    ensures ParseAll(OffsetStrings(offsets)).Some?
    ensures Pairs(ParseAll(OffsetStrings(offsets)).value) == offsets
  {
    var parts := OffsetStrings(offsets);
    OffsetStringsParse(offsets);
    OffsetStringsAvoid(offsets);
    SplitJoin(parts, ',');
    var vs := ParseAll(parts).value;
    forall i | 0 <= i < |vs|
      ensures vs[i] == if i % 2 == 0 then offsets[i / 2].x else offsets[i / 2].y
    {
      assert ParseInt(parts[i]) == Some(vs[i]);
    }
    PairsOfNumbers(offsets, vs);
  }

  /** Taking the numbers x0, y0, x1, y1, ... two at a time gives back the offsets. */
  lemma PairsOfNumbers(offsets: seq<Coord>, vs: seq<int>)
    requires |vs| == 2 * |offsets|
    requires forall i :: 0 <= i < |vs| ==> vs[i] == if i % 2 == 0 then offsets[i / 2].x else offsets[i / 2].y
    ensures Pairs(vs) == offsets
  {
    forall k | 0 <= k < |offsets|
      ensures Pairs(vs)[k] == offsets[k]
    {
      assert (2 * k) / 2 == k && (2 * k) % 2 == 0;
      assert (2 * k + 1) / 2 == k && (2 * k + 1) % 2 == 1;
    }
  }

  /** Reading back what `dump_coords` wrote, for the same image count, restores the layout. */
  lemma LayoutRoundTrip(folds: seq<bool>, offsets: seq<Coord>)
    requires |folds| == |offsets| >= 1
    ensures ParseLayout(Serialize(folds, offsets), |folds| + 1) == Loaded(Layout(folds, offsets))
    ensures InitialLayout(Some(Serialize(folds, offsets)), |folds| + 1) == Layout(folds, offsets)
  {
    SerializeLines(folds, offsets);
    IntRoundTrip(|folds| + 1);
    FoldsRoundTrip(folds);
    OffsetsRoundTrip(offsets);
  }

  /** A file written for a different number of images is refused and the zero layout stays. */
  lemma WrongCountKeepsZeroLayout(folds: seq<bool>, offsets: seq<Coord>, n: nat)
    requires |folds| == |offsets| >= 1 && n >= 1 && n != |folds| + 1
    ensures ParseLayout(Serialize(folds, offsets), n) == WrongCount
    ensures InitialLayout(Some(Serialize(folds, offsets)), n) == ZeroLayout(n)
  {
    SerializeLines(folds, offsets);
    IntRoundTrip(|folds| + 1);
  }
}

/** The three header numbers of a PPM file may stand on one line, on two or on three, with blanks
    around them; the parser reads them all the same. */
module PpmLayouts {
  import opened Rings
  import opened Ppm

  /** Spaces, tabs and carriage returns. */
  ghost predicate Spaces(s: string) { forall k :: 0 <= k < |s| ==> s[k] == ' ' || s[k] == '\t' || s[k] == '\r' }

  /** A line of numbers: the space before each, and the space after the last. */
  datatype NumberLine = NumberLine(numbers: seq<nat>, gaps: seq<string>, tail: string)

  ghost predicate WellSpaced(numbers: seq<nat>, gaps: seq<string>, first: bool) {
    |gaps| == |numbers| &&
    forall k :: 0 <= k < |gaps| ==> numbers[k] < UINT && Spaces(gaps[k]) && (gaps[k] != [] || (first && k == 0))
  }

  function Spaced(numbers: seq<nat>, gaps: seq<string>, tail: string): string
    requires |gaps| == |numbers|
  {
    if numbers == [] then tail + "\n" else gaps[0] + (Decimal(numbers[0]) + Spaced(numbers[1..], gaps[1..], tail))
  }

  function Text(l: NumberLine): string
    requires |l.gaps| == |l.numbers|
  {
    Spaced(l.numbers, l.gaps, l.tail)
  }

  /** At least one number, spaces between, and short enough for one fgets. */
  ghost predicate IsNumberLine(l: NumberLine)
    ensures IsNumberLine(l) ==> |l.gaps| == |l.numbers|
  {
    l.numbers != [] && WellSpaced(l.numbers, l.gaps, true) && Spaces(l.tail) && |Text(l)| <= 63
  }

  // ---------- reading one line ----------

  lemma {:induction false} SkipsSpaces(s: string, rest: string)
    requires Spaces(s)
    ensures SkipBlanks(s + rest) == SkipBlanks(rest)
  {
    if s == [] {
      assert s + rest == rest;
    } else {
      assert (s + rest)[1..] == s[1..] + rest;
      SkipsSpaces(s[1..], rest);
    }
  }

  lemma ReadsNumeralBefore(s: string, rest: string)
    requires AllDigits(s) && s != [] && (rest != [] ==> !IsDigit(rest[0]))
    ensures ReadUnsigned(s + rest) == Some((Folded(0, s) % UINT, rest))
  {
    FoldedCons(0, s);
    ReadsDigits(s[1..], rest, DigitValue(s[0]));
    hide Folded, ReadDigits;
    assert (s + rest)[0] == s[0] && (s + rest)[1..] == s[1..] + rest;
  }

  lemma SpacedStarts(numbers: seq<nat>, gaps: seq<string>, tail: string)
    requires WellSpaced(numbers, gaps, false) && Spaces(tail)
    ensures Spaced(numbers, gaps, tail) != [] && !IsDigit(Spaced(numbers, gaps, tail)[0])
  {
    if numbers != [] {
      assert Spaced(numbers, gaps, tail)[0] == gaps[0][0];
    } else {
      assert Spaced(numbers, gaps, tail)[0] == (tail + "\n")[0];
    }
    hide Decimal;
  }

  lemma RestSpaced(numbers: seq<nat>, gaps: seq<string>, first: bool)
    requires WellSpaced(numbers, gaps, first) && numbers != []
    ensures WellSpaced(numbers[1..], gaps[1..], false)
  {
  }

  lemma ReadsNothing(tail: string, k: nat)
    requires Spaces(tail)
    ensures Numbers(tail + "\n", k) == []
  {
    SkipsSpaces(tail, "\n");
    assert SkipBlanks("\n") == SkipBlanks("\n"[1..]) == [];
    NothingToRead();
  }

  lemma ReadsNext(v: nat, gap: string, rest: string, n: nat)
    requires v < UINT && Spaces(gap) && n > 0 && (rest != [] ==> !IsDigit(rest[0]))
    ensures var s := gap + (Decimal(v) + rest); Numbers(s, n) == [v] + Numbers(rest, n - 1) && SkipBlanks(s) != []
  {
    DecimalDigits(v);
    hide Decimal, Folded, ReadUnsigned, SkipBlanks, Spaces;
    SkipsSpaces(gap, Decimal(v) + rest);
    ReadsNumeralBefore(Decimal(v), rest);
    StartsWithDigit(Decimal(v), rest);
  }

  /** All numbers of a line are read, in order, by as many conversions or more. */
  lemma {:induction false} ReadsAll(numbers: seq<nat>, gaps: seq<string>, tail: string, first: bool, n: nat)
    requires WellSpaced(numbers, gaps, first) && Spaces(tail) && |numbers| <= n
    ensures Numbers(Spaced(numbers, gaps, tail), n) == numbers
    ensures numbers != [] ==> SkipBlanks(Spaced(numbers, gaps, tail)) != []
    decreases |numbers|
  {
    if numbers == [] {
      ReadsNothing(tail, n);
    } else {
      hide Decimal, Numbers, SkipBlanks, Spaces;
      assert Spaces(gaps[0]) && numbers[0] < UINT;
      RestSpaced(numbers, gaps, first);
      assert Spaced(numbers, gaps, tail) == gaps[0] + (Decimal(numbers[0]) + Spaced(numbers[1..], gaps[1..], tail));
      hide Spaced, WellSpaced;
      SpacedStarts(numbers[1..], gaps[1..], tail);
      ReadsAll(numbers[1..], gaps[1..], tail, false, n - 1);
      ReadsNext(numbers[0], gaps[0], Spaced(numbers[1..], gaps[1..], tail), n);
      assert numbers == [numbers[0]] + numbers[1..];
    }
  }

  lemma StartsWithDigit(s: string, rest: string)
    requires AllDigits(s) && s != []
    ensures SkipBlanks(s + rest) == s + rest != []
  {
    assert (s + rest)[0] == s[0];
  }

  ghost predicate Plain(s: string) { forall k :: 0 <= k < |s| ==> s[k] != '\n' && s[k] != '\0' && s[k] != '#' }

  lemma PlainNumber(n: nat)
    ensures Plain(Decimal(n))
  {
    DecimalDigits(n);
  }

  function Body(numbers: seq<nat>, gaps: seq<string>, tail: string): string
    requires |gaps| == |numbers|
  {
    if numbers == [] then tail else gaps[0] + (Decimal(numbers[0]) + Body(numbers[1..], gaps[1..], tail))
  }

  // A line of numbers is one line of text without a comment sign or an end of string in it.
  lemma {:induction false} BodyIsPlain(numbers: seq<nat>, gaps: seq<string>, tail: string, first: bool)
    requires WellSpaced(numbers, gaps, first) && Spaces(tail)
    ensures Plain(Body(numbers, gaps, tail)) && Spaced(numbers, gaps, tail) == Body(numbers, gaps, tail) + "\n"
    decreases |numbers|
  {
    if numbers != [] {
      RestSpaced(numbers, gaps, first);
      BodyIsPlain(numbers[1..], gaps[1..], tail, false);
      PlainNumber(numbers[0]);
      assert Spaces(gaps[0]);
    }
    hide Decimal;
  }

  /** A header line of numbers sets the header numbers whose turn it is, and moves on by as many. */
  lemma ScansLine(l: NumberLine, h: Header)
    requires IsNumberLine(l) && h.i + |l.numbers| <= 3
    ensures h.i < 3 && Scan(h, Text(l)) ==
            Header(h.i + |l.numbers|, Pick(l.numbers, 0 - h.i, h.width), Pick(l.numbers, 1 - h.i, h.height),
                   Pick(l.numbers, 2 - h.i, h.maxval))
  {
    BodyIsPlain(l.numbers, l.gaps, l.tail, true);
    ReadsAll(l.numbers, l.gaps, l.tail, true, 3 - h.i);
    var s := Text(l);
    hide Spaced, Body, Numbers, SkipBlanks;
    assert forall k :: 0 <= k < |s| ==> s[k] != '\0';
    NoNul(s);
    assert s[0] != '#';
  }

  lemma ParsesLine(l: NumberLine, rest: string, h: Header)
    requires IsNumberLine(l) && h.i + |l.numbers| <= 3
    ensures Parse(Text(l) + rest, h) ==
            Parse(rest, Header(h.i + |l.numbers|, Pick(l.numbers, 0 - h.i, h.width), Pick(l.numbers, 1 - h.i, h.height),
                               Pick(l.numbers, 2 - h.i, h.maxval)))
  {
    BodyIsPlain(l.numbers, l.gaps, l.tail, true);
    var body := Body(l.numbers, l.gaps, l.tail);
    ShortLine(body, rest);
    ScansLine(l, h);
    assert Text(l) + rest == body + "\n" + rest && Text(l) + rest != [];
    hide Text, Line, Rest, Scan, Body;
  }

  // ---------- all layouts ----------

  ghost function AllText(lines: seq<NumberLine>): string
    requires forall l :: l in lines ==> IsNumberLine(l)
  {
    if lines == [] then []
    else
      assert IsNumberLine(lines[0]);
      Text(lines[0]) + AllText(lines[1..])
  }

  function AllNumbers(lines: seq<NumberLine>): seq<nat> {
    if lines == [] then [] else lines[0].numbers + AllNumbers(lines[1..])
  }

  // The header after these numbers.
  function Filled(v: seq<nat>): Header { Header(|v|, Pick(v, 0, 0), Pick(v, 1, 0), Pick(v, 2, 0)) }

  lemma {:induction false} LayoutFrom(lines: seq<NumberLine>, rest: string, done: seq<nat>)
    requires forall l :: l in lines ==> IsNumberLine(l)
    requires |done| + |AllNumbers(lines)| == 3
    ensures Parse(AllText(lines) + rest, Filled(done)) == Some((Filled(done + AllNumbers(lines)), rest))
    decreases |lines|
  {
    if lines == [] {
      assert AllText(lines) + rest == rest && done + AllNumbers(lines) == done;
    } else {
      var l, after := lines[0], AllText(lines[1..]) + rest;
      assert IsNumberLine(l);
      hide Parse, IsNumberLine, Text;
      assert AllText(lines) + rest == Text(l) + after;
      assert done + AllNumbers(lines) == (done + l.numbers) + AllNumbers(lines[1..]);
      ParsesLine(l, after, Filled(done));
      NextFilled(done, l.numbers);
      assert |done + l.numbers| + |AllNumbers(lines[1..])| == 3;
      hide AllText, AllNumbers, Filled, Pick;
      LayoutFrom(lines[1..], rest, done + l.numbers);
    }
  }

  lemma NextFilled(done: seq<nat>, v: seq<nat>)
    requires |done| + |v| <= 3
    ensures var h := Filled(done);
            Filled(done + v) == Header(h.i + |v|, Pick(v, 0 - h.i, h.width), Pick(v, 1 - h.i, h.height), Pick(v, 2 - h.i, h.maxval))
  {
  }

  /** However width, height and maximal value are spread over one, two or three lines, and spaced,
      the parser takes them, and leaves what follows. */
  lemma EveryLayoutParses(lines: seq<NumberLine>, rest: string, w: nat, h: nat, maxval: nat)
    requires forall l :: l in lines ==> IsNumberLine(l)
    requires AllNumbers(lines) == [w, h, maxval]
    ensures Parse(AllText(lines) + rest, START) == Some((Header(3, w, h, maxval), rest))
  {
    LayoutFrom(lines, rest, []);
    hide Parse, AllText, AllNumbers;
    var none: seq<nat> := [];
    assert none + [w, h, maxval] == [w, h, maxval];
  }

  /** The usual header, with both sizes on one line. */
  lemma SizesOnOneLine(w: nat, h: nat, rest: string)
    requires w < UINT && h < UINT
    ensures Parse(Decimal(w) + " " + Decimal(h) + "\n" + rest, START) == Parse(rest, Header(2, w, h, 0))
  {
    hide Decimal, Parse;
    var l := NumberLine([w, h], ["", " "], "");
    UsualLine(w, h);
    ParsesLine(l, rest, START);
    assert Text(l) + rest == Decimal(w) + " " + Decimal(h) + "\n" + rest by { hide Text; }
  }

  lemma UsualLine(w: nat, h: nat)
    requires w < UINT && h < UINT
    ensures var l := NumberLine([w, h], ["", " "], "");
            IsNumberLine(l) && Text(l) == Decimal(w) + " " + Decimal(h) + "\n"
  {
    UintLength(w);
    UintLength(h);
    hide Decimal;
    var l := NumberLine([w, h], ["", " "], "");
    assert l.numbers[1..] == [h] && l.numbers[1..][1..] == [] && l.gaps[1..] == [" "] && l.gaps[1..][1..] == [];
    assert Spaced([], [], "") == "\n";
    assert Spaced([h], [" "], "") == " " + (Decimal(h) + "\n");
    assert Text(l) == "" + (Decimal(w) + Spaced([h], [" "], ""));
    assert " " + (Decimal(h) + "\n") == " " + Decimal(h) + "\n";
    assert Text(l) == Decimal(w) + " " + Decimal(h) + "\n";
  }

  lemma UsualHeaderParses(w: nat, h: nat, bytes: string)
    requires w < UINT && h < UINT
    ensures Parse(Decimal(w) + " " + Decimal(h) + "\n" + ("255\n" + bytes), START) == Some((Header(3, w, h, 255), bytes))
  {
    MaxvalDigits();
    hide Decimal, Parse;
    SizesOnOneLine(w, h, "255\n" + bytes);
    assert Decimal(255) + "\n" + bytes == "255\n" + bytes;
    ParsesNumberLine(255, bytes, Header(2, w, h, 0));
    ParseDone(bytes, Header(3, w, h, 255));
  }

  lemma MagicLines(channels: nat)
    requires channels == 1 || channels == 3
    ensures var magic := if channels == 1 then "P5" else "P6";
            OneLine(magic) && |magic| < LINE_LIMIT && Channels(magic + "\n") == channels
  {
    var magic := if channels == 1 then "P5" else "P6";
    assert (magic + "\n")[1] == if channels == 1 then '5' else '6';
  }

  /** Such a file is loaded with its sizes and as many bytes as they ask for, or as there are. */
  lemma UsualFileLoads(channels: nat, w: nat, h: nat, bytes: string)
    requires w < 0x1_0000_0000 && h < 0x1_0000_0000 && (channels == 1 || channels == 3)
    requires w * h * channels < 0x1_0000_0000
    ensures Load((if channels == 1 then "P5" else "P6") + "\n" + (Decimal(w) + " " + Decimal(h) + "\n" + ("255\n" + bytes)))
            == Some(Image(w, h, channels, if |bytes| < w * h * channels then bytes else bytes[..w * h * channels]))
  {
    WholeCount(w, h, channels);
    hide Decimal, Parse, Load, Count, Channels, OneLine;
    UsualHeaderParses(w, h, bytes);
    MagicLines(channels);
    LoadsBody(if channels == 1 then "P5" else "P6", Decimal(w) + " " + Decimal(h) + "\n" + ("255\n" + bytes));
    var n: nat := w * h * channels;
    assert |bytes| == n ==> bytes[..n] == bytes;
  }

  lemma WholeCount(w: nat, h: nat, channels: nat)
    requires w * h * channels < 0x1_0000_0000
    ensures Count(w, h, channels) == w * h * channels
  {
    var n: nat := w * h * channels;
    assert n % UINT == n;
  }

  /** Signs: a minus takes the number from 2^32, a plus changes nothing. */
  lemma ReadsSigned(n: nat, rest: string)
    requires 0 < n < 0x1_0000_0000 && (rest != [] ==> !IsDigit(rest[0]))
    ensures ReadUnsigned("-" + (Decimal(n) + rest)) == Some((0x1_0000_0000 - n, rest))
    ensures ReadUnsigned("+" + (Decimal(n) + rest)) == Some((n, rest))
  {
    DecimalDigits(n);
    var s, d := Decimal(n) + rest, Decimal(n);
    hide Decimal, Folded;
    FoldedCons(0, d);
    ReadsDigits(d[1..], rest, DigitValue(d[0]));
    assert s[0] == d[0] && s[1..] == d[1..] + rest;
    assert ("-" + s)[1..] == s && ("+" + s)[1..] == s;
    hide ReadDigits;
  }

  /** fgets takes 63 characters of a longer line and no more. */
  lemma TakesAtMost63(s: string, rest: string)
    requires OneLine(s) && |s| == 63
    ensures Line(s + rest) == s && Rest(s + rest) == rest
  {
    LineLengthCapped(s, rest, 63);
  }

  /** The blanks are those of isspace. */
  lemma BlanksAre(c: char)
    ensures IsBlank(c) <==> c == ' ' || c == '\t' || c == '\n' || c == '\r' || c as int == 11 || c as int == 12
  {
  }

  /** Of a line with a NUL in it only what comes before is read. */
  lemma {:induction false} NulEndsText(s: string, rest: string)
    requires forall k :: 0 <= k < |s| ==> s[k] != '\0'
    ensures CString(s + "\0" + rest) == s
  {
    var all := s + "\0" + rest;
    if s == [] {
      assert all[0] == '\0';
    } else {
      NulEndsText(s[1..], rest);
      assert all[0] == s[0] && all[1..] == s[1..] + "\0" + rest;
    }
  }
}

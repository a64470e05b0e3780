/** Exactly which lines of a PPM header the parser passes over, whatever their length, and what
    a blank line does. fgets cuts a line into pieces of at most 63 characters, and the parser
    treats every piece as a line of its own. */
module PpmHeader {
  import opened Rings
  import opened Ppm

  // ---------- one piece ----------

  ghost predicate AllBlank(s: string) { forall k :: 0 <= k < |s| ==> IsBlank(s[k]) }

  lemma {:induction false} NothingButBlanks(s: string)
    ensures SkipBlanks(s) == [] <==> AllBlank(s)
  {
    if s != [] && IsBlank(s[0]) {
      NothingButBlanks(s[1..]);
      assert s == [s[0]] + s[1..];
    }
  }

  /** An optional sign and a digit: what %u can convert. */
  predicate StartsNumber(s: string) {
    var body := if s != [] && (s[0] == '-' || s[0] == '+') then s[1..] else s;
    body != [] && IsDigit(body[0])
  }

  /** A comment, or a text whose first character that is not blank starts no number. */
  predicate Ignored(line: string) {
    var t := SkipBlanks(CString(line));
    "#" <= line || (t != [] && !StartsNumber(t))
  }

  /** A piece leaves the parser as it was exactly when it is ignored. */
  lemma ScanIgnores(h: Header, line: string)
    requires h.i < 3
    ensures Scan(h, line) == h <==> Ignored(line)
    ensures !Ignored(line) ==> Scan(h, line).i == (h.i + Sscanf(CString(line), 3 - h.i)) % UINT != h.i
  {
    var text, n := CString(line), 3 - h.i;
    assert ReadUnsigned(SkipBlanks(text)).Some? <==> StartsNumber(SkipBlanks(text));
    if !("#" <= line) {
      assert Sscanf(text, n) == 0 <==> Ignored(line);
      assert Sscanf(text, n) == 0 ==> Numbers(text, n) == [];
      assert Sscanf(text, n) == -1 ==> h.i + Sscanf(text, n) == h.i - 1;
    }
  }

  /** A piece of blanks, and no other, takes the counter back by one, past 0 to 2^32 - 1, and
      keeps all numbers. */
  lemma BlankStepsBack(h: Header, line: string)
    requires h.i < 3
    ensures Scan(h, line).i == (h.i - 1) % UINT <==> !("#" <= line) && AllBlank(CString(line))
    ensures !("#" <= line) && AllBlank(CString(line)) ==> Scan(h, line) == h.(i := (h.i - 1) % UINT)
  {
    var text, n := CString(line), 3 - h.i;
    NothingButBlanks(text);
    if !("#" <= line) {
      if AllBlank(text) {
        NoNumberHere();
        assert Numbers(text, n) == [];
      } else {
        assert 0 <= Sscanf(text, n) <= n;
      }
    }
  }

  lemma NoNumberHere()
    ensures ReadUnsigned([]) == None
  {
  }

  lemma BlankLineScan(blanks: string, h: Header)
    requires AllBlank(blanks) && h.i < 3
    ensures Scan(h, blanks + "\n") == h.(i := if h.i == 0 then UINT - 1 else h.i - 1)
  {
    var line := blanks + "\n";
    NoNul(line);
    assert line[0] != '#';
    hide Scan, Sscanf, Numbers, SkipBlanks;
    BlankStepsBack(h, line);
  }

  lemma ParseOnce(line: string, rest: string, h: Header)
    requires OneLine(line) && |line| < LINE_LIMIT && h.i < 3
    ensures Parse(line + "\n" + rest, h) == Parse(rest, Scan(h, line + "\n"))
  {
    ShortLine(line, rest);
    hide Scan, Line, Rest, OneLine;
    assert line + "\n" + rest != [];
  }

  /** A blank line ends the header when no number has been read; otherwise the parser goes back
      by one number. */
  lemma BlankLineStepsBack(blanks: string, rest: string, h: Header)
    requires OneLine(blanks) && |blanks| < LINE_LIMIT && AllBlank(blanks) && h.i < 3
    ensures Parse(blanks + "\n" + rest, h)
         == if h.i == 0 then Some((h.(i := UINT - 1), rest)) else Parse(rest, h.(i := h.i - 1))
  {
    hide Parse, Scan, OneLine;
    ParseOnce(blanks, rest, h);
    BlankLineScan(blanks, h);
    if h.i == 0 {
      ParseDone(rest, h.(i := UINT - 1));
    }
  }

  /** So a blank line after a number makes the next number take its place. */
  lemma BlankLineUndoesNumber(n: nat, next: nat, rest: string, h: Header)
    requires n < UINT && next < UINT && h.i < 2
    ensures Parse(Decimal(n) + "\n" + ("\n" + (Decimal(next) + "\n" + rest)), h)
         == Parse(Decimal(next) + "\n" + rest, h)
  {
    hide Decimal, Parse;
    var after := Decimal(next) + "\n" + rest;
    var h' := Header(h.i + 1, if h.i == 0 then n else h.width, if h.i == 1 then n else h.height, h.maxval);
    ParsesNumberLine(n, "\n" + after, h);
    assert [] + "\n" + after == "\n" + after;
    BlankLineStepsBack([], after, h');
    ParsesNumberLine(next, rest, h);
    ParsesNumberLine(next, rest, h'.(i := h.i));
  }

  // ---------- a line of any length ----------

  /** The parser after the pieces of a line, for as long as its header is not complete. */
  function Absorbed(line: string, h: Header): Header
    decreases |line|
  {
    if h.i >= 3 then h
    else if |line| < LINE_LIMIT then Scan(h, line + "\n")
    else Absorbed(line[LINE_LIMIT..], Scan(h, line[..LINE_LIMIT]))
  }

  /** Every piece of the line is ignored. */
  predicate PiecesIgnored(line: string)
    decreases |line|
  {
    if |line| < LINE_LIMIT then Ignored(line + "\n")
    else Ignored(line[..LINE_LIMIT]) && PiecesIgnored(line[LINE_LIMIT..])
  }

  /** A long line is read as its first 63 characters and then the rest of it. */
  lemma LongLine(line: string, rest: string, h: Header)
    requires OneLine(line) && |line| >= LINE_LIMIT && h.i < 3
    ensures Parse(line + "\n" + rest, h) == Parse(line[LINE_LIMIT..] + "\n" + rest, Scan(h, line[..LINE_LIMIT]))
  {
    var head, tail := line[..LINE_LIMIT], line[LINE_LIMIT..] + "\n" + rest;
    assert line + "\n" + rest == head + tail;
    LineLengthCapped(head, tail, LINE_LIMIT);
    assert Line(head + tail) == head && Rest(head + tail) == tail;
    hide Scan, Line, Rest, LineLength;
  }

  lemma {:induction false} LineIsAbsorbed(line: string, rest: string, h: Header)
    requires OneLine(line) && h.i < 3
    ensures var h' := Absorbed(line, h);
            if h'.i < 3 then Parse(line + "\n" + rest, h) == Parse(rest, h')
            else Parse(line + "\n" + rest, h).Some?
    decreases |line|
  {
    if |line| < LINE_LIMIT {
      ParseOnce(line, rest, h);
      hide Scan, Parse;
      if Scan(h, line + "\n").i >= 3 {
        ParseDone(rest, Scan(h, line + "\n"));
      }
    } else {
      LongLine(line, rest, h);
      var h1 := Scan(h, line[..LINE_LIMIT]);
      hide Scan, Parse;
      if h1.i >= 3 {
        ParseDone(line[LINE_LIMIT..] + "\n" + rest, h1);
      } else {
        LineIsAbsorbed(line[LINE_LIMIT..], rest, h1);
      }
    }
  }

  function BlankLines(k: nat): string { if k == 0 then [] else "\n" + BlankLines(k - 1) }

  lemma {:induction false} BlankLinesStepBack(k: nat, h: Header)
    requires h.i < 3 && k <= h.i + 1
    ensures Parse(BlankLines(k), h) == if k <= h.i then None else Some((h.(i := UINT - 1), []))
  {
    if k > 0 {
      var rest := BlankLines(k - 1);
      assert BlankLines(k) == [] + "\n" + rest;
      BlankLineStepsBack([], rest, h);
      if h.i > 0 {
        BlankLinesStepBack(k - 1, h.(i := h.i - 1));
      }
    }
  }

  /** Two incomplete headers that differ are told apart by some number of blank lines. */
  lemma HeadersTellApart(h: Header, h': Header) returns (rest: string)
    requires h.i < 3 && h'.i < 3 && h != h'
    ensures Parse(rest, h) != Parse(rest, h')
  {
    var k := if h.i <= h'.i then h.i + 1 else h'.i + 1;
    rest := BlankLines(k);
    hide Parse, BlankLines;
    BlankLinesStepBack(k, h);
    BlankLinesStepBack(k, h');
  }

  ghost predicate SkippedAt(line: string, h: Header) {
    forall rest :: Parse(line + "\n" + rest, h) == Parse(rest, h)
  }

  /** A line of any length is passed over at a given point, whatever follows, exactly when its
      pieces leave the header they find. */
  lemma SkippedExactly(line: string, h: Header)
    requires OneLine(line) && h.i < 3
    ensures SkippedAt(line, h) <==> Absorbed(line, h) == h
  {
    var h' := Absorbed(line, h);
    hide Absorbed, Parse, OneLine;
    forall rest ensures h' == h ==> Parse(line + "\n" + rest, h) == Parse(rest, h) {
      LineIsAbsorbed(line, rest, h);
    }
    if h' != h {
      var rest := [];
      if h'.i < 3 {
        rest := HeadersTellApart(h', h);
      } else {
        NothingToParse(h);
      }
      LineIsAbsorbed(line, rest, h);
      assert Parse(line + "\n" + rest, h) != Parse(rest, h);
    }
  }

  lemma NothingToParse(h: Header)
    requires h.i < 3
    ensures Parse([], h) == None
  {
  }

  lemma {:induction false} IgnoredIsAbsorbed(line: string, h: Header)
    requires PiecesIgnored(line) && h.i < 3
    ensures Absorbed(line, h) == h
    decreases |line|
  {
    hide Scan, Ignored;
    if |line| < LINE_LIMIT {
      ScanIgnores(h, line + "\n");
    } else {
      ScanIgnores(h, line[..LINE_LIMIT]);
      IgnoredIsAbsorbed(line[LINE_LIMIT..], h);
    }
  }

  // The point of the header at which a piece that is not ignored completes or wraps it.
  function Weakest(piece: string): Header {
    if SkipBlanks(CString(piece)) == [] then START else Header(2, 0, 0, 0)
  }

  lemma PieceEnds(piece: string)
    requires !Ignored(piece)
    ensures Weakest(piece).i < 3 <= Scan(Weakest(piece), piece).i
  {
    ScanIgnores(Weakest(piece), piece);
  }

  lemma {:induction false} NotIgnoredEnds(line: string) returns (h: Header)
    requires !PiecesIgnored(line)
    ensures h.i < 3 <= Absorbed(line, h).i
    decreases |line|
  {
    hide Scan, Ignored, Weakest;
    var piece := if |line| < LINE_LIMIT then line + "\n" else line[..LINE_LIMIT];
    if !Ignored(piece) {
      h := Weakest(piece);
      PieceEnds(piece);
    } else {
      h := NotIgnoredEnds(line[LINE_LIMIT..]);
      ScanIgnores(h, piece);
    }
  }

  /** A line of any length is passed over everywhere in the header, whatever follows, exactly
      when each of its pieces is ignored. */
  lemma SkippedEverywhereExactly(line: string)
    requires OneLine(line)
    ensures (forall h: Header :: h.i < 3 ==> SkippedAt(line, h)) <==> PiecesIgnored(line)
  {
    hide SkippedAt, Absorbed, PiecesIgnored, OneLine;
    if PiecesIgnored(line) {
      forall h: Header | h.i < 3 ensures SkippedAt(line, h) {
        IgnoredIsAbsorbed(line, h);
        SkippedExactly(line, h);
      }
    } else {
      var h := NotIgnoredEnds(line);
      SkippedExactly(line, h);
    }
  }

  /** A comment is passed over exactly when it has at most 62 characters, or every further piece
      of it is ignored. */
  lemma CommentSkippedExactly(comment: string)
    requires "#" <= comment && OneLine(comment)
    ensures (forall h: Header :: h.i < 3 ==> SkippedAt(comment, h))
            <==> |comment| < LINE_LIMIT || PiecesIgnored(comment[LINE_LIMIT..])
  {
    SkippedEverywhereExactly(comment);
    hide SkippedAt, OneLine;
    if |comment| < LINE_LIMIT {
      assert (comment + "\n")[0] == '#';
    } else {
      assert comment[..LINE_LIMIT][0] == '#';
    }
  }

  lemma {:induction false} BlankPiecesCount(line: string)
    requires AllBlank(line)
    ensures !PiecesIgnored(line)
    decreases |line|
  {
    var piece := if |line| < LINE_LIMIT then line + "\n" else line[..LINE_LIMIT];
    NoNul(piece);
    NothingButBlanks(piece);
    assert !("#" <= piece);
  }

  /** The limit of 62 is sharp: at every greater length some comment is not passed over. */
  lemma LimitIsSharp(n: nat) returns (comment: string)
    requires n >= LINE_LIMIT
    ensures |comment| == n && "#" <= comment && OneLine(comment)
    ensures exists h: Header :: h.i < 3 && !SkippedAt(comment, h)
  {
    comment := "#" + seq(n - 1, _ => ' ');
    CommentSkippedExactly(comment);
    BlankPiecesCount(comment[LINE_LIMIT..]);
    hide SkippedAt;
  }
}

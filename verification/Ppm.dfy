/** The PPM/PGM printer and parser. A file is the sequence of its bytes, and a byte is a
    char, so that header text and pixels can share one sequence. */
module Ppm {
  import opened Rings

  const LINE_LIMIT := 63
  const UINT: nat := 0x1_0000_0000

  datatype Image = Image(width: nat, height: nat, channels: nat, pixels: string)

  /** The product of three unsigned ints, as C computes it: the number of bytes moved. */
  function Count(w: nat, h: nat, channels: nat): nat {
    (w * h * channels) % UINT
  }

  // ---------- fgets ----------

  /** How many bytes fgets takes: up to and with a newline, and at most limit. */
  function LineLength(s: string, limit: nat): (n: nat)
    ensures n <= |s| && n <= limit && (s != [] && limit > 0 ==> n > 0)
  {
    if s == [] || limit == 0 then 0
    else if s[0] == '\n' then 1
    else 1 + LineLength(s[1..], limit - 1)
  }

  function Line(s: string): string { s[..LineLength(s, LINE_LIMIT)] }

  function Rest(s: string): (r: string)
    ensures s != [] ==> |r| < |s|
  {
    s[LineLength(s, LINE_LIMIT)..]
  }

  /** Text with no line break in it. */
  ghost predicate OneLine(s: string) { forall k :: 0 <= k < |s| ==> s[k] != '\n' }

  lemma {:induction false} LineLengthOf(s: string, rest: string, limit: nat)
    requires OneLine(s) && |s| < limit
    ensures LineLength(s + "\n" + rest, limit) == |s| + 1
  {
    var all := s + "\n" + rest;
    if s == [] {
      assert all[0] == '\n';
    } else {
      LineLengthOf(s[1..], rest, limit - 1);
      assert all[1..] == s[1..] + "\n" + rest;
    }
  }

  /** A short line is read whole. */
  lemma ShortLine(s: string, rest: string)
    requires OneLine(s) && |s| < LINE_LIMIT
    ensures Line(s + "\n" + rest) == s + "\n" && Rest(s + "\n" + rest) == rest
  {
    LineLengthOf(s, rest, LINE_LIMIT);
    assert s + "\n" + rest == (s + "\n") + rest;
  }

  lemma {:induction false} LineLengthCapped(s: string, rest: string, limit: nat)
    requires OneLine(s) && |s| == limit
    ensures LineLength(s + rest, limit) == limit
  {
    if limit > 0 {
      LineLengthCapped(s[1..], rest, limit - 1);
      assert (s + rest)[1..] == s[1..] + rest;
    }
  }

  // ---------- sscanf ----------

  predicate IsBlank(c: char) { c == ' ' || 9 <= c as int <= 13 }

  predicate IsDigit(c: char) { '0' <= c <= '9' }

  function DigitValue(c: char): nat
    requires IsDigit(c)
  {
    c as int - '0' as int
  }

  /** The part of a line buffer that is a C string. */
  function CString(s: string): string {
    if s == [] || s[0] == '\0' then [] else [s[0]] + CString(s[1..])
  }

  function SkipBlanks(s: string): (t: string)
    ensures |t| <= |s|
  {
    if s != [] && IsBlank(s[0]) then SkipBlanks(s[1..]) else s
  }

  /** The digits at the front of s appended to acc, and what follows them. */
  function ReadDigits(s: string, acc: nat): (r: (nat, string))
    ensures |r.1| <= |s|
  {
    if s != [] && IsDigit(s[0]) then ReadDigits(s[1..], 10 * acc + DigitValue(s[0])) else (acc, s)
  }

  /** %u: an optional sign and at least one digit, taken modulo the width of an unsigned int. */
  function ReadUnsigned(s: string): (r: Option<(nat, string)>)
    ensures r.Some? ==> |r.value.1| < |s|
  {
    var signed := s != [] && (s[0] == '-' || s[0] == '+');
    var body := if signed then s[1..] else s;
    if body == [] || !IsDigit(body[0]) then None
    else
      var (v, rest) := ReadDigits(body[1..], DigitValue(body[0]));
      var n: int := if s[0] == '-' then -(v as int) else v;
      Some((n % UINT, rest))
  }

  /** The numbers that n conversions find. */
  function Numbers(s: string, n: nat): (v: seq<nat>)
    ensures |v| <= n
    decreases n
  {
    if n == 0 then []
    else
      match ReadUnsigned(SkipBlanks(s))
      case None => []
      case Some((v, rest)) => [v] + Numbers(rest, n - 1)
  }

  /** What sscanf returns: the numbers it stored, or -1 at the end of the text. */
  function Sscanf(s: string, n: nat): (r: int)
    ensures -1 <= r <= n
  {
    if n > 0 && SkipBlanks(s) == [] then -1 else |Numbers(s, n)|
  }

  // ---------- the header ----------

  /** The parser's counter and the three numbers it looks for. */
  datatype Header = Header(i: nat, width: nat, height: nat, maxval: nat)

  const START := Header(0, 0, 0, 0)

  function Pick(v: seq<nat>, k: int, kept: nat): nat {
    if 0 <= k < |v| then v[k] else kept
  }

  /** One header line: comments are skipped, otherwise number k of the line is header number
      i + k, and the counter wraps when sscanf returns -1. */
  function Scan(h: Header, line: string): Header
    requires h.i < 3
  {
    if "#" <= line then h
    else
      var v := Numbers(CString(line), 3 - h.i);
      Header((h.i + Sscanf(CString(line), 3 - h.i)) % UINT,
             Pick(v, 0 - h.i, h.width), Pick(v, 1 - h.i, h.height), Pick(v, 2 - h.i, h.maxval))
  }

  /** The header that lines from the front of file complete, and the bytes after it. */
  function Parse(file: string, h: Header): Option<(Header, string)>
    decreases |file|
  {
    if h.i >= 3 then Some((h, file))
    else if file == [] then None
    else Parse(Rest(file), Scan(h, Line(file)))
  }

  function Channels(line: string): nat {
    if "P5" <= line then 1 else if "P6" <= line then 3 else 0
  }

  function Taken(s: string, n: nat): string { if n <= |s| then s[..n] else s }

  /** What the bytes after the magic line hold: the pixels that fread finds may be fewer than
      the header says. */
  function LoadBody(channels: nat, body: string): Option<Image> {
    match Parse(body, START)
    case None => None
    case Some((h, rest)) =>
      Some(Image(h.width, h.height, channels, Taken(rest, Count(h.width, h.height, channels))))
  }

  function Load(file: string): Option<Image> {
    if file == [] || Channels(Line(file)) == 0 then None else LoadBody(Channels(Line(file)), Rest(file))
  }

  /** __loadPPM with no buffer supplied. */
  method LoadPPM(file: string) returns (image: Option<Image>)
    ensures image == Load(file)
  {
    if file == [] {
      return None;
    }
    var header, rest := Line(file), Rest(file);
    var channels;
    if "P5" <= header {
      channels := 1;
    } else if "P6" <= header {
      channels := 3;
    } else {
      return None;
    }
    var i: nat, width: nat, height: nat, maxval: nat := 0, 0, 0, 0;
    while i < 3
      invariant Parse(rest, Header(i, width, height, maxval)) == Parse(Rest(file), START)
      decreases |rest|, 3 - i
    {
      if rest == [] {
        return None;
      }
      header, rest := Line(rest), Rest(rest);
      if "#" <= header {
        continue;
      }
      var text := CString(header);
      if i == 0 {
        var v := Numbers(text, 3);
        width, height, maxval := Pick(v, 0, width), Pick(v, 1, height), Pick(v, 2, maxval);
        i := (i + Sscanf(text, 3)) % UINT;
      } else if i == 1 {
        var v := Numbers(text, 2);
        height, maxval := Pick(v, 0, height), Pick(v, 1, maxval);
        i := (i + Sscanf(text, 2)) % UINT;
      } else {
        var v := Numbers(text, 1);
        maxval := Pick(v, 0, maxval);
        i := (i + Sscanf(text, 1)) % UINT;
      }
    }
    return Some(Image(width, height, channels, Taken(rest, Count(width, height, channels))));
  }

  /** __loadPPM with a buffer supplied: its sizes are not changed, and the pixels go to the
      front of the buffer, which must have room for them. */
  method LoadPPMInto(file: string, data: array<char>) returns (ok: bool)
    requires Load(file).Some? ==> |Load(file).value.pixels| <= data.Length
    modifies data
    ensures ok <==> Load(file).Some?
    ensures ok ==>
              var n := |Load(file).value.pixels|;
              data[..n] == Load(file).value.pixels && data[n..] == old(data[n..])
    ensures !ok ==> data[..] == old(data[..])
  {
    var loaded := LoadPPM(file);
    hide Load;
    if loaded.None? {
      return false;
    }
    var pixels := loaded.value.pixels;
    ghost var was := data[..];
    for i := 0 to |pixels|
      invariant forall k :: 0 <= k < i ==> data[k] == pixels[k]
      invariant forall k :: i <= k < data.Length ==> data[k] == was[k]
    {
      data[i] := pixels[i];
    }
    return true;
  }

  // ---------- printing ----------

  function Digit(d: nat): char
    requires d < 10
  {
    ('0' as int + d) as char
  }

  function Decimal(n: nat): string {
    if n < 10 then [Digit(n)] else Decimal(n / 10) + [Digit(n % 10)]
  }

  function Magic(channels: nat): string
    requires channels == 1 || channels == 3
  {
    if channels == 1 then "P5" else "P6"
  }

  function Head(w: nat, h: nat, channels: nat): string
    requires channels == 1 || channels == 3
  {
    Magic(channels) + "\n" + Decimal(w) + "\n" + Decimal(h) + "\n" + "255" + "\n"
  }

  function Printed(w: nat, h: nat, channels: nat, data: string): string
    requires channels == 1 || channels == 3
    requires Count(w, h, channels) <= |data|
  {
    Head(w, h, channels) + data[..Count(w, h, channels)]
  }

  /** __savePPM onto a stream that accepts every byte. */
  method SavePPM(data: array<char>, w: nat, h: nat, channels: nat) returns (ok: bool, file: string)
    requires 0 < w < UINT && 0 < h < UINT
    requires Count(w, h, channels) <= data.Length
    ensures ok <==> channels == 1 || channels == 3
    ensures if ok then file == Printed(w, h, channels, data[..]) else file == []
  {
    hide Decimal, Count;
    if channels == 1 {
      file := "P5" + "\n";
    } else if channels == 3 {
      file := "P6" + "\n";
    } else {
      return false, [];
    }
    file := file + Decimal(w) + "\n" + Decimal(h) + "\n" + "255" + "\n";
    var n := Count(w, h, channels);
    for i := 0 to n
      invariant file == Head(w, h, channels) + data[..i]
    {
      assert data[..i + 1] == data[..i] + [data[i]];
      file := file + [data[i]];
    }
    assert data[..n] == data[..][..n];
    return true, file;
  }

  // ---------- numbers come back ----------

  ghost predicate AllDigits(s: string) { forall k :: 0 <= k < |s| ==> IsDigit(s[k]) }

  function Folded(acc: nat, s: string): nat
    requires AllDigits(s)
  {
    if s == [] then acc else 10 * Folded(acc, s[..|s| - 1]) + DigitValue(s[|s| - 1])
  }

  lemma {:induction false} FoldedCons(acc: nat, s: string)
    requires AllDigits(s) && s != []
    ensures Folded(acc, s) == Folded(10 * acc + DigitValue(s[0]), s[1..])
  {
    if |s| > 1 {
      var front := s[..|s| - 1];
      FoldedCons(acc, front);
      assert s[1..][..|s| - 2] == front[1..];
    }
  }

  lemma {:induction false} ReadsDigits(s: string, rest: string, acc: nat)
    requires AllDigits(s) && (rest != [] ==> !IsDigit(rest[0]))
    ensures ReadDigits(s + rest, acc) == (Folded(acc, s), rest)
  {
    if s == [] {
      assert s + rest == rest;
    } else {
      FoldedCons(acc, s);
      ReadsDigits(s[1..], rest, 10 * acc + DigitValue(s[0]));
      assert (s + rest)[1..] == s[1..] + rest;
    }
  }

  lemma {:induction false} DecimalDigits(n: nat)
    ensures Decimal(n) != [] && AllDigits(Decimal(n)) && Folded(0, Decimal(n)) == n
  {
    if n >= 10 {
      DecimalDigits(n / 10);
      assert Decimal(n)[..|Decimal(n)| - 1] == Decimal(n / 10);
    }
  }

  function Power10(k: nat): nat { if k == 0 then 1 else 10 * Power10(k - 1) }

  lemma {:induction false} DecimalLength(n: nat, k: nat)
    requires n < Power10(k) && k > 0
    ensures |Decimal(n)| <= k
  {
    if n >= 10 {
      DecimalLength(n / 10, k - 1);
    }
  }

  lemma UintLength(n: nat)
    requires n < UINT
    ensures |Decimal(n)| <= 10
  {
    assert Power10(5) == 100000;
    assert Power10(10) == 100000 * Power10(5);
    DecimalLength(n, 10);
  }

  lemma ReadsNumeral(s: string)
    requires AllDigits(s) && s != []
    ensures ReadUnsigned(s + "\n") == Some((Folded(0, s) % UINT, "\n"))
  {
    FoldedCons(0, s);
    var t := s[1..];
    ReadsDigits(t, "\n", DigitValue(s[0]));
    hide Folded, ReadDigits;
    assert (s + "\n")[0] == s[0] && (s + "\n")[1..] == t + "\n";
  }

  lemma ReadsDecimal(n: nat)
    requires n < UINT
    ensures ReadUnsigned(Decimal(n) + "\n") == Some((n, "\n"))
  {
    DecimalDigits(n);
    hide Decimal, Folded, ReadUnsigned;
    ReadsNumeral(Decimal(n));
  }

  /** A line holding one printed number is read back as that number and nothing more. */
  lemma ReadsNumber(n: nat, k: nat)
    requires n < UINT && k > 0
    ensures CString(Decimal(n) + "\n") == Decimal(n) + "\n"
    ensures Numbers(Decimal(n) + "\n", k) == [n] && Sscanf(Decimal(n) + "\n", k) == 1
  {
    var s := Decimal(n) + "\n";
    ReadsDecimal(n);
    DecimalDigits(n);
    hide Decimal, Folded, ReadUnsigned;
    NoNul(s);
    assert s[0] == Decimal(n)[0];
    assert SkipBlanks(s) == s;
    hide CString;
    assert Numbers("\n", k - 1) == [] by {
      assert SkipBlanks("\n") == SkipBlanks("\n"[1..]) == [];
      NothingToRead();
    }
    assert Numbers(s, k) == [n] + Numbers("\n", k - 1);
  }

  lemma NothingToRead()
    ensures ReadUnsigned([]) == None
  {
  }

  lemma {:induction false} NoNul(s: string)
    requires forall k :: 0 <= k < |s| ==> s[k] != '\0'
    ensures CString(s) == s
  {
    if s != [] {
      NoNul(s[1..]);
    }
  }

  lemma DecimalIsALine(n: nat)
    requires n < UINT
    ensures OneLine(Decimal(n)) && |Decimal(n)| < LINE_LIMIT && !("#" <= Decimal(n) + "\n")
  {
    DecimalDigits(n);
    UintLength(n);
    assert (Decimal(n) + "\n")[0] == Decimal(n)[0];
  }

  lemma ScansNumber(n: nat, h: Header)
    requires n < UINT && h.i < 3
    ensures Scan(h, Decimal(n) + "\n")
         == Header(h.i + 1, if h.i == 0 then n else h.width, if h.i == 1 then n else h.height,
                   if h.i == 2 then n else h.maxval)
  {
    DecimalIsALine(n);
    ReadsNumber(n, 3 - h.i);
  }

  // One number per line: the parser moves on by one.
  lemma ParsesNumberLine(n: nat, rest: string, h: Header)
    requires n < UINT && h.i < 3
    ensures Parse(Decimal(n) + "\n" + rest, h)
         == Parse(rest, Header(h.i + 1, if h.i == 0 then n else h.width, if h.i == 1 then n else h.height,
                               if h.i == 2 then n else h.maxval))
  {
    DecimalIsALine(n);
    ShortLine(Decimal(n), rest);
    ScansNumber(n, h);
    hide Decimal, Line, Rest, Scan, OneLine;
    assert Decimal(n) + "\n" + rest != [];
  }

  // ---------- round trips ----------

  lemma LoadsBody(magic: string, rest: string)
    requires OneLine(magic) && |magic| < LINE_LIMIT
    ensures Load(magic + "\n" + rest)
         == if Channels(magic + "\n") == 0 then None else LoadBody(Channels(magic + "\n"), rest)
  {
    ShortLine(magic, rest);
  }

  function Sizes(w: nat, h: nat, bytes: string): string {
    Decimal(w) + "\n" + (Decimal(h) + "\n" + ("255" + "\n" + bytes))
  }

  lemma MaxvalDigits()
    ensures Decimal(255) == "255"
  {
    assert Decimal(2) == "2";
    assert Decimal(25) == "25";
  }

  lemma ParseDone(file: string, h: Header)
    requires h.i >= 3
    ensures Parse(file, h) == Some((h, file))
  {
  }

  lemma ParsesSizes(w: nat, h: nat, bytes: string)
    requires w < UINT && h < UINT
    ensures Parse(Sizes(w, h, bytes), START) == Some((Header(3, w, h, 255), bytes))
  {
    hide Decimal, Parse;
    MaxvalDigits();
    var third := Decimal(255) + "\n" + bytes;
    var second := Decimal(h) + "\n" + third;
    ParsesNumberLine(w, second, START);
    ParsesNumberLine(h, third, Header(1, w, 0, 0));
    ParsesNumberLine(255, bytes, Header(2, w, h, 0));
    ParseDone(bytes, Header(3, w, h, 255));
  }

  lemma HeadIsSizes(w: nat, h: nat, channels: nat, bytes: string)
    requires channels == 1 || channels == 3
    ensures Head(w, h, channels) + bytes == Magic(channels) + "\n" + Sizes(w, h, bytes)
  {
  }

  lemma MagicNamesChannels(channels: nat)
    requires channels == 1 || channels == 3
    ensures Channels(Magic(channels) + "\n") == channels
  {
    assert (Magic(channels) + "\n")[1] == if channels == 1 then '5' else '6';
  }

  /** Loading what was printed gives the sizes back, and the bytes that were moved. */
  lemma PrintedLoads(w: nat, h: nat, channels: nat, data: string)
    requires w < UINT && h < UINT && (channels == 1 || channels == 3)
    requires Count(w, h, channels) <= |data|
    ensures Load(Printed(w, h, channels, data)) == Some(Image(w, h, channels, data[..Count(w, h, channels)]))
  {
    hide Parse, Load, Count, Sizes;
    var bytes := data[..Count(w, h, channels)];
    LoadsBody(Magic(channels), Sizes(w, h, bytes));
    ParsesSizes(w, h, bytes);
    HeadIsSizes(w, h, channels, bytes);
    MagicNamesChannels(channels);
    assert Taken(bytes, Count(w, h, channels)) == bytes;
  }

  /** Saving and loading an image of w by h pixels is the identity exactly when the byte count
      fits an unsigned int. */
  lemma SaveLoadRoundTrip(w: nat, h: nat, channels: nat, data: string)
    requires 0 < w < UINT && 0 < h < UINT && (channels == 1 || channels == 3)
    requires |data| == w * h * channels
    ensures Count(w, h, channels) <= |data|
    ensures Load(Printed(w, h, channels, data)) == Some(Image(w, h, channels, data)) <==> w * h * channels < UINT
  {
    var n := w * h * channels;
    assert n >= 0;
    assert n % UINT <= n && (n % UINT == n <==> n < UINT);
    PrintedLoads(w, h, channels, data);
    assert data[..|data|] == data;
    assert |data[..Count(w, h, channels)]| == n % UINT;
  }

  // ---------- comments ----------

  function Comments(lines: seq<string>): string {
    if lines == [] then [] else lines[0] + "\n" + Comments(lines[1..])
  }

  ghost predicate IsComment(line: string) {
    "#" <= line && OneLine(line) && |line| < LINE_LIMIT
  }

  lemma {:induction false} CommentsAreSkipped(lines: seq<string>, rest: string, h: Header)
    requires forall k :: 0 <= k < |lines| ==> IsComment(lines[k])
    requires h.i < 3
    ensures Parse(Comments(lines) + rest, h) == Parse(rest, h)
  {
    if lines == [] {
      assert Comments(lines) + rest == rest;
    } else {
      var tail := Comments(lines[1..]) + rest;
      assert Comments(lines) + rest == lines[0] + "\n" + tail;
      ShortLine(lines[0], tail);
      assert (lines[0] + "\n")[0] == '#';
      CommentsAreSkipped(lines[1..], rest, h);
    }
  }

  /** Comment lines after the magic line change nothing, for every file. */
  lemma CommentsChangeNothing(magic: string, lines: seq<string>, rest: string)
    requires OneLine(magic) && |magic| < LINE_LIMIT
    requires forall k :: 0 <= k < |lines| ==> IsComment(lines[k])
    ensures Load(magic + "\n" + (Comments(lines) + rest)) == Load(magic + "\n" + rest)
  {
    LoadsBody(magic, rest);
    LoadsBody(magic, Comments(lines) + rest);
    CommentsAreSkipped(lines, rest, START);
  }

  // ---------- four bytes a pixel ----------

  /** Byte k of a three-byte image, and of a four-byte one. */
  function Stripped(data: string, size: nat): (r: string)
    requires 4 * size <= |data|
  {
    seq(3 * size, k requires 0 <= k < 3 * size => data[4 * (k / 3) + k % 3])
  }

  function Padded(data: string, size: nat): (r: string)
    requires 3 * size <= |data|
  {
    seq(4 * size, k requires 0 <= k < 4 * size => if k % 4 == 3 then '\0' else data[3 * (k / 4) + k % 4])
  }

  /** The number of pixels as the four-byte functions compute it: an unsigned product, which
      they keep in an int. */
  function Pixels(w: nat, h: nat): nat { (w * h) % UINT }

  /** sdkSavePPM4ub, as long as the number of pixels is not negative as an int. */
  method SavePPM4ub(data: array<char>, w: nat, h: nat) returns (ok: bool, file: string)
    requires 0 < w < UINT && 0 < h < UINT && Pixels(w, h) < UINT / 2
    requires 4 * Pixels(w, h) <= data.Length
    ensures Count(w, h, 3) <= 3 * Pixels(w, h)
    ensures ok && file == Printed(w, h, 3, Stripped(data[..], Pixels(w, h)))
  {
    CountOfThree(w, h);
    hide Pixels, Count, Stripped, Printed;
    var ndata := Strip(data, Pixels(w, h));
    ok, file := SavePPM(ndata, w, h, 3);
  }

  // The copy loop of sdkSavePPM4ub.
  method Strip(data: array<char>, size: nat) returns (ndata: array<char>)
    requires 4 * size <= data.Length
    ensures ndata[..] == Stripped(data[..], size) && ndata.Length == 3 * size
  {
    ndata := new char[3 * size];
    var ptr, from := 0, 0;
    for i := 0 to size
      invariant ptr == 3 * i && from == 4 * i
      invariant forall k :: 0 <= k < 3 * i ==> ndata[k] == Stripped(data[..], size)[k]
    {
      ndata[ptr] := data[from];
      ndata[ptr + 1] := data[from + 1];
      ndata[ptr + 2] := data[from + 2];
      ptr, from := ptr + 3, from + 4;
    }
  }

  lemma CountOfThree(w: nat, h: nat)
    ensures Count(w, h, 3) <= 3 * Pixels(w, h)
    ensures 3 * (w * h) < UINT ==> Pixels(w, h) == w * h && Count(w, h, 3) == 3 * (w * h)
  {
    var n := w * h;
    assert w * h * 3 == 3 * n;
    ThriceMod(n);
  }

  lemma ThriceMod(n: nat)
    ensures (3 * n) % UINT <= 3 * (n % UINT) && (3 * n < UINT ==> n % UINT == n && (3 * n) % UINT == 3 * n)
  {
    var q, r := n / UINT, n % UINT;
    assert 3 * n == 3 * q * UINT + 3 * r;
  }

  /** The four-byte pixels made of three-byte ones, of which only some bytes are known. */
  ghost predicate PaddedFrom(data: string, known: string, size: nat) {
    |data| == 4 * size &&
    forall k :: 0 <= k < 4 * size ==>
      if k % 4 == 3 then data[k] == '\0' else 3 * (k / 4) + k % 4 < |known| ==> data[k] == known[3 * (k / 4) + k % 4]
  }

  /** sdkLoadPPM4ub, except for files of one channel. Bytes that a short file leaves unread stay
      as they were allocated. */
  method LoadPPM4ub(file: string) returns (image: Option<Image>)
    requires Load(file).Some? ==>
               Load(file).value.channels == 3 && Pixels(Load(file).value.width, Load(file).value.height) < UINT / 2
    ensures match Load(file)
            case None => image == None
            case Some(p) =>
              image.Some? && image.value.width == p.width && image.value.height == p.height && image.value.channels == 4 &&
              PaddedFrom(image.value.pixels, p.pixels, Pixels(p.width, p.height))
  {
    var loaded := LoadPPM(file);
    LoadedFits(file);
    hide Load, Count, Pixels;
    if loaded.None? {
      return None;
    }
    var p := loaded.value;
    var size := Pixels(p.width, p.height);
    var idata := new char[3 * size];
    for i := 0 to |p.pixels|
      invariant forall k :: 0 <= k < i ==> idata[k] == p.pixels[k]
    {
      idata[i] := p.pixels[i];
    }
    var data := Pad(idata[..], size);
    PadsFrom(idata[..], p.pixels, size);
    return Some(Image(p.width, p.height, 4, data[..]));
  }

  lemma LoadedFits(file: string)
    ensures Load(file).Some? ==>
              var p := Load(file).value;
              |p.pixels| <= Count(p.width, p.height, p.channels) &&
              (p.channels == 3 ==> |p.pixels| <= 3 * Pixels(p.width, p.height))
  {
    if Load(file).Some? {
      CountOfThree(Load(file).value.width, Load(file).value.height);
      hide Parse, Line, Rest, Pixels, Channels;
    }
  }

  lemma PadsFrom(idata: string, known: string, size: nat)
    requires |idata| == 3 * size && |known| <= |idata| && forall k :: 0 <= k < |known| ==> idata[k] == known[k]
    ensures PaddedFrom(Padded(idata, size), known, size)
  {
  }

  // The copy loop of sdkLoadPPM4ub.
  method Pad(idata: string, size: nat) returns (data: array<char>)
    requires |idata| == 3 * size
    ensures data[..] == Padded(idata, size)
  {
    data := new char[4 * size];
    var ptr, from := 0, 0;
    for i := 0 to size
      invariant ptr == 4 * i && from == 3 * i
      invariant forall k :: 0 <= k < 4 * i ==> data[k] == Padded(idata, size)[k]
    {
      data[ptr] := idata[from];
      data[ptr + 1] := idata[from + 1];
      data[ptr + 2] := idata[from + 2];
      data[ptr + 3] := '\0';
      ptr, from := ptr + 4, from + 3;
    }
  }

  /** Four-byte pixels with each fourth byte 0. */
  function Zeroed(data: string): (r: string) {
    seq(|data|, k requires 0 <= k < |data| => if k % 4 == 3 then '\0' else data[k])
  }

  /** Saving and then loading. Of an image whose size fits, all bytes come back but each fourth,
      which becomes 0; of another the bytes beyond what was saved are anything. */
  method SaveAndLoad(data: array<char>, w: nat, h: nat) returns (image: Option<Image>)
    requires 0 < w < UINT && 0 < h < UINT && Pixels(w, h) < UINT / 2 && data.Length == 4 * (w * h)
    ensures image.Some? && image.value.width == w && image.value.height == h && image.value.channels == 4
    ensures CanReturn(data[..], w, h, image.value.pixels)
    ensures 3 * (w * h) < UINT ==> image.value.pixels == Zeroed(data[..])
  {
    PixelsFit(w, h);
    FourByteRoundTrip(w, h, data[..]);
    hide Pixels, Count, Stripped, Printed, Load, PaddedFrom;
    var ok, file := SavePPM4ub(data, w, h);
    image := LoadPPM4ub(file);
  }

  lemma PixelsFit(w: nat, h: nat)
    ensures Pixels(w, h) <= w * h && (Pixels(w, h) == w * h <==> w * h < UINT)
    ensures Count(w, h, 3) <= 3 * (w * h)
  {
    var n := w * h;
    assert w * h * 3 == 3 * n;
    assert n % UINT <= n && (n % UINT == n <==> n < UINT);
    CountOfThree(w, h);
  }

  /** What loading can give after saving: the bytes saved, and as many more as there are pixels. */
  ghost predicate CanReturn(data: string, w: nat, h: nat, pixels: string)
    requires |data| == 4 * (w * h)
  {
    PixelsFit(w, h);
    Count(w, h, 3) <= 3 * Pixels(w, h) &&
    PaddedFrom(pixels, Stripped(data, Pixels(w, h))[..Count(w, h, 3)], Pixels(w, h))
  }

  /** Saving four-byte pixels and loading them again always keeps every byte but each fourth,
      which becomes 0, exactly when the byte count of the three-byte image fits an unsigned int. */
  lemma FourByteRoundTrip(w: nat, h: nat, data: string)
    requires 0 < w < UINT && 0 < h < UINT && |data| == 4 * (w * h)
    ensures Pixels(w, h) <= w * h && Count(w, h, 3) <= 3 * Pixels(w, h)
    ensures var s := Stripped(data, Pixels(w, h));
            Load(Printed(w, h, 3, s)) == Some(Image(w, h, 3, s[..Count(w, h, 3)]))
    ensures (forall pixels :: CanReturn(data, w, h, pixels) ==> pixels == Zeroed(data)) <==> 3 * (w * h) < UINT
  {
    PixelsFit(w, h);
    CountOfThree(w, h);
    PrintedLoads(w, h, 3, Stripped(data, Pixels(w, h)));
    if 3 * (w * h) < UINT {
      forall pixels | CanReturn(data, w, h, pixels) ensures pixels == Zeroed(data) {
        AllKnown(data, w * h, pixels);
      }
    } else {
      var pixels := Spoilt(w, h, data);
    }
    hide Load, Printed, Count, Stripped, CanReturn, Pixels;
  }

  lemma AllKnown(data: string, size: nat, pixels: string)
    requires |data| == 4 * size && PaddedFrom(pixels, Stripped(data, size)[..3 * size], size)
    ensures pixels == Zeroed(data)
  {
    PaddedStripped(data, size);
    var s := Stripped(data, size);
    assert s[..3 * size] == s;
    forall k | 0 <= k < 4 * size ensures pixels[k] == Zeroed(data)[k] {
      assert Padded(s, size)[k] == pixels[k];
    }
  }

  // With a count that does not fit, too few pixels, or a byte that was not saved.
  lemma Spoilt(w: nat, h: nat, data: string) returns (pixels: string)
    requires 0 < w < UINT && 0 < h < UINT && |data| == 4 * (w * h) && 3 * (w * h) >= UINT
    ensures CanReturn(data, w, h, pixels) && pixels != Zeroed(data)
  {
    PixelsFit(w, h);
    CountOfThree(w, h);
    var size := Pixels(w, h);
    var s := Stripped(data, size);
    pixels := Padded(s, size);
    if size == w * h {
      CountWraps(w, h);
      var last: nat := 4 * (size - 1) + 2;
      pixels := pixels[last := if data[last] == 'a' then 'b' else 'a'];
      assert Zeroed(data)[last] == data[last];
    }
    hide Pixels, Count;
  }

  lemma CountWraps(w: nat, h: nat)
    requires 3 * (w * h) >= UINT
    ensures Count(w, h, 3) < 3 * (w * h) && w * h > 0
  {
    var n := w * h;
    assert w * h * 3 == 3 * n;
    assert (3 * n) % UINT < UINT;
  }

  lemma PaddedStripped(data: string, size: nat)
    requires |data| == 4 * size
    ensures Padded(Stripped(data, size), size) == Zeroed(data)
  {
    var s := Stripped(data, size);
    forall k | 0 <= k < 4 * size && k % 4 != 3
      ensures Padded(s, size)[k] == data[k]
    {
      var j := 3 * (k / 4) + k % 4;
      assert j / 3 == k / 4 && j % 3 == k % 4;
    }
  }
}

/** SWIG's text form of raw bytes: two lower-case hex digits a byte, high half first; and
    of a pointer: an underscore, its bytes, and a type name. */
module SwigHex {
  import opened Rings

  type Byte = bv8

  const DIGITS := "0123456789abcdef"
  const POINTER_SIZE := 8
  const NUL := '\0'

  function Digit(n: Byte): char
    requires n < 16
  {
    DIGITS[n as int]
  }

  /** The value of a hex digit, as the two range tests accept it. */
  function Value(d: char): Option<Byte> {
    if '0' <= d <= '9' then Some((d as int - '0' as int) as Byte)
    else if 'a' <= d <= 'f' then Some((d as int - ('a' as int - 10)) as Byte)
    else None
  }

  function High(b: Byte): Byte { (b & 0xf0) >> 4 }

  function Low(b: Byte): Byte { b & 0xf }

  function Joined(h: Byte, l: Byte): Byte { (h << 4) | l }

  lemma HalvesAreSmall(b: Byte)
    ensures High(b) < 16 && Low(b) < 16 && Joined(High(b), Low(b)) == b
  {
  }

  lemma JoinedSplits(h: Byte, l: Byte)
    requires h < 16 && l < 16
    ensures High(Joined(h, l)) == h && Low(Joined(h, l)) == l
  {
  }

  lemma DigitHasValue(n: Byte)
    requires n < 16
    ensures Value(Digit(n)) == Some(n)
  {
    var k := n as int;
    assert k < 16;
    assert k as Byte == n;
    if k < 10 {
      assert Digit(n) as int == '0' as int + k;
    } else {
      assert Digit(n) as int == 'a' as int + (k - 10);
    }
  }

  lemma ValueHasDigit(d: char)
    requires Value(d).Some?
    ensures Value(d).value < 16 && Digit(Value(d).value) == d
  {
    var k := if '0' <= d <= '9' then d as int - '0' as int else d as int - ('a' as int - 10);
    assert 0 <= k < 16;
    assert Value(d).value as int == k;
  }

  // ---------- the codec ----------

  function PackByte(b: Byte): string {
    HalvesAreSmall(b);
    [Digit(High(b)), Digit(Low(b))]
  }

  function Pack(u: seq<Byte>): (c: string)
    ensures |c| == 2 * |u|
  {
    if u == [] then [] else PackByte(u[0]) + Pack(u[1..])
  }

  function UnpackByte(c: string): Option<Byte> {
    if |c| < 2 || Value(c[0]).None? || Value(c[1]).None? then None
    else Some(Joined(Value(c[0]).value, Value(c[1]).value))
  }

  /** n bytes read from the front of c, or nothing. */
  function Unpack(c: string, n: nat): Option<seq<Byte>> {
    if n == 0 then Some([])
    else if UnpackByte(c).None? || Unpack(c[2..], n - 1).None? then None
    else Some([UnpackByte(c).value] + Unpack(c[2..], n - 1).value)
  }

  lemma UnpackPackedByte(b: Byte, rest: string)
    ensures UnpackByte(PackByte(b) + rest) == Some(b)
  {
    HalvesAreSmall(b);
    DigitHasValue(High(b));
    DigitHasValue(Low(b));
  }

  lemma PackedInTurn(u: seq<Byte>, rest: string)
    requires u != []
    ensures var (all, tail) := (Pack(u) + rest, Pack(u[1..]) + rest); all == PackByte(u[0]) + tail && all[2..] == tail
  {
    assert |PackByte(u[0])| == 2;
    hide PackByte;
    Regrouped(PackByte(u[0]), Pack(u[1..]), rest);
  }

  lemma Regrouped(a: string, b: string, c: string)
    requires |a| == 2
    ensures (a + b) + c == a + (b + c) && ((a + b) + c)[2..] == b + c
  {
    assert (a + b) + c == a + (b + c);
  }

  /** Unpacking undoes packing, whatever follows. */
  lemma {:induction false} UnpackUndoesPack(u: seq<Byte>, rest: string)
    ensures Unpack(Pack(u) + rest, |u|) == Some(u)
  {
    if u != [] {
      PackedInTurn(u, rest);
      hide Pack, PackByte, UnpackByte;
      UnpackUndoesPack(u[1..], rest);
      UnpackPackedByte(u[0], Pack(u[1..]) + rest);
      assert u == [u[0]] + u[1..];
    }
  }

  lemma PackUnpackedByte(c: string)
    requires UnpackByte(c).Some?
    ensures PackByte(UnpackByte(c).value) == c[..2]
  {
    ValueHasDigit(c[0]);
    ValueHasDigit(c[1]);
    JoinedSplits(Value(c[0]).value, Value(c[1]).value);
  }

  /** Every text that unpacks is the packing of what it unpacks to, two characters a byte. */
  lemma {:induction false} PackUndoesUnpack(c: string, n: nat)
    requires Unpack(c, n).Some?
    ensures |Unpack(c, n).value| == n && 2 * n <= |c| && Pack(Unpack(c, n).value) == c[..2 * n]
  {
    if n > 0 {
      PackUndoesUnpack(c[2..], n - 1);
      PackUnpackedByte(c);
      assert Unpack(c, n).value[1..] == Unpack(c[2..], n - 1).value;
      assert c[..2 * n] == c[..2] + c[2..][..2 * (n - 1)];
    }
  }

  // One more byte fits at the end.
  lemma {:induction false} UnpackExtends(c: string, n: nat)
    requires Unpack(c, n).Some?
    ensures 2 * n <= |c| && |Unpack(c, n).value| == n
    ensures Unpack(c, n + 1) == match UnpackByte(c[2 * n..])
                                case None => None
                                case Some(b) => Some(Unpack(c, n).value + [b])
  {
    PackUndoesUnpack(c, n);
    var last := UnpackByte(c[2 * n..]);
    if n == 0 {
      assert c[0..] == c;
      assert Unpack(c, 0) == Some([]);
      if last.Some? {
        assert Unpack(c[2..], 0) == Some([]);
        assert Unpack(c, 1) == Some([last.value] + []);
        assert [last.value] + [] == [] + [last.value];
      }
    } else {
      UnpackExtends(c[2..], n - 1);
      assert c[2..][2 * (n - 1)..] == c[2 * n..];
      if last.Some? {
        var x, u := UnpackByte(c).value, Unpack(c[2..], n - 1).value;
        assert [x] + (u + [last.value]) == [x] + u + [last.value];
      }
    }
  }

  lemma {:induction false} UnpackFails(c: string, k: nat, n: nat)
    requires k <= n && Unpack(c, k).None?
    ensures Unpack(c, n).None?
  {
    if k > 0 && UnpackByte(c).Some? {
      UnpackFails(c[2..], k - 1, n - 1);
    }
  }

  lemma {:induction false} PackExtends(u: seq<Byte>, b: Byte)
    ensures Pack(u + [b]) == Pack(u) + PackByte(b)
  {
    if u != [] {
      PackExtends(u[1..], b);
      assert (u + [b])[1..] == u[1..] + [b];
    }
  }

  // ---------- the loops ----------

  /** SWIG_PackData, writing from position c on. */
  method PackData(buf: array<char>, c: nat, u: seq<Byte>) returns (end: nat)
    requires c + 2 * |u| <= buf.Length
    modifies buf
    ensures end == c + 2 * |u| && buf[c..end] == Pack(u)
    ensures buf[..c] == old(buf[..c]) && buf[end..] == old(buf[end..])
  {
    end := c;
    for k := 0 to |u|
      invariant end == c + 2 * k && buf[c..end] == Pack(u[..k])
      invariant buf[..c] == old(buf[..c]) && buf[end..] == old(buf[end..])
    {
      HalvesAreSmall(u[k]);
      PackExtends(u[..k], u[k]);
      assert u[..k + 1] == u[..k] + [u[k]];
      ghost var tail := buf[end..];
      buf[end] := Digit(High(u[k]));
      end := end + 1;
      buf[end] := Digit(Low(u[k]));
      end := end + 1;
      assert buf[c..end] == buf[c..end - 2] + PackByte(u[k]);
      assert buf[end..] == tail[2..];
    }
    assert u[..|u|] == u;
  }

  // A C string ends in a NUL, which is the last character that may be read.
  function CharAt(c: string, i: nat): char
    requires i <= |c|
  {
    if i < |c| then c[i] else NUL
  }

  /** SWIG_UnpackData, reading from position pos of a C string: never past its terminator.
      On failure the bytes before the bad digit have been stored. */
  method UnpackData(c: string, pos: nat, u: array<Byte>) returns (end: Option<nat>)
    requires pos <= |c|
    modifies u
    ensures match Unpack(c[pos..], u.Length)
            case Some(bytes) => end == Some(pos + 2 * u.Length) && u[..] == bytes
            case None =>
              end == None &&
              exists k :: 0 <= k < u.Length && Unpack(c[pos..], k) == Some(u[..k]) && u[k..] == old(u[k..])
  {
    var at := pos;
    for k := 0 to u.Length
      invariant at == pos + 2 * k && at <= |c|
      invariant Unpack(c[pos..], k) == Some(u[..k]) && u[k..] == old(u[k..])
    {
      UnpackExtends(c[pos..], k);
      assert c[pos..][2 * k..] == c[at..];
      var h := Value(CharAt(c, at));
      if h.None? {
        UnpackFails(c[pos..], k + 1, u.Length);
        return None;
      }
      at := at + 1;
      var l := Value(CharAt(c, at));
      if l.None? {
        UnpackFails(c[pos..], k + 1, u.Length);
        return None;
      }
      at := at + 1;
      ghost var tail := u[k..];
      u[k] := Joined(h.value, l.value);
      assert u[k + 1..] == tail[1..];
      assert u[..k + 1] == u[..k] + [u[k]];
    }
    assert u[..u.Length] == u[..];
    return Some(at);
  }

  // ---------- pointers ----------

  /** SWIG_PackVoidPtr into a buffer of bsz characters. */
  method PackVoidPtr(buf: array<char>, ptr: seq<Byte>, name: string, bsz: nat) returns (ok: bool)
    requires |ptr| == POINTER_SIZE && bsz <= buf.Length
    modifies buf
    ensures ok <==> 2 * POINTER_SIZE + 2 <= bsz && |name| + 1 <= bsz - (2 * POINTER_SIZE + 1)
    ensures ok ==> buf[..2 * POINTER_SIZE + 2 + |name|] == "_" + Pack(ptr) + name + [NUL] &&
                   buf[2 * POINTER_SIZE + 2 + |name|..] == old(buf[2 * POINTER_SIZE + 2 + |name|..])
    ensures !ok && bsz < 2 * POINTER_SIZE + 2 ==> buf[..] == old(buf[..])
    ensures !ok && bsz >= 2 * POINTER_SIZE + 2 ==>
              buf[..2 * POINTER_SIZE + 1] == "_" + Pack(ptr) &&
              buf[2 * POINTER_SIZE + 1..] == old(buf[2 * POINTER_SIZE + 1..])
  {
    ghost var was := buf[..];
    if 2 * POINTER_SIZE + 2 > bsz {
      return false;
    }
    buf[0] := '_';
    var r := PackData(buf, 1, ptr);
    assert buf[..r] == buf[..1] + buf[1..r];
    assert buf[..r] == "_" + Pack(ptr);
    if |name| + 1 > bsz - r {
      return false;
    }
    ghost var head := buf[..r];
    for k := 0 to |name|
      invariant buf[..r + k] == head + name[..k]
      invariant forall i :: r + k <= i < buf.Length ==> buf[i] == was[i]
    {
      buf[r + k] := name[k];
      assert buf[..r + k + 1] == buf[..r + k] + [name[k]];
    }
    buf[r + |name|] := NUL;
    assert buf[..r + |name| + 1] == head + name[..|name|] + [NUL];
    return true;
  }

  /** What SWIG_UnpackVoidPtr makes of a text: the pointer and what follows it. */
  function UnpackPointer(c: string, name: string): Option<(seq<Byte>, string)> {
    if c == [] || c[0] != '_' then
      if c == "NULL" then Some((seq(POINTER_SIZE, i => 0), name)) else None
    else
      match Unpack(c[1..], POINTER_SIZE)
      case None => None
      case Some(bytes) => PackUndoesUnpack(c[1..], POINTER_SIZE); Some((bytes, c[1 + 2 * POINTER_SIZE..]))
  }

  method UnpackVoidPtr(c: string, ptr: array<Byte>, name: string) returns (rest: Option<string>)
    requires ptr.Length == POINTER_SIZE
    modifies ptr
    ensures match UnpackPointer(c, name)
            case None =>
              rest == None &&
              if c == [] || c[0] != '_' then ptr[..] == old(ptr[..])
              else exists k :: 0 <= k < POINTER_SIZE && Unpack(c[1..], k) == Some(ptr[..k]) && ptr[k..] == old(ptr[k..])
            case Some(hit) => ptr[..] == hit.0 && rest == Some(hit.1)
  {
    if CharAt(c, 0) != '_' {
      if c == "NULL" {
        for i := 0 to POINTER_SIZE
          invariant forall k :: 0 <= k < i ==> ptr[k] == 0
        {
          ptr[i] := 0;
        }
        return Some(name);
      }
      return None;
    }
    var end := UnpackData(c, 1, ptr);
    if end.None? {
      return None;
    }
    PackUndoesUnpack(c[1..], POINTER_SIZE);
    return Some(c[end.value..]);
  }

  /** A packed pointer unpacks to itself and leaves its type name. */
  lemma PointerRoundTrip(ptr: seq<Byte>, name: string, other: string)
    requires |ptr| == POINTER_SIZE
    ensures UnpackPointer("_" + Pack(ptr) + name, other) == Some((ptr, name))
  {
    var c := "_" + Pack(ptr) + name;
    assert c[1..] == Pack(ptr) + name;
    UnpackUndoesPack(ptr, name);
    assert c[1 + 2 * POINTER_SIZE..] == name;
  }

  /** Every text with an underscore that is accepted is a packed pointer and a name. */
  lemma PointerTextIsPacked(c: string, other: string)
    requires UnpackPointer(c, other).Some? && c != "NULL"
    ensures var hit := UnpackPointer(c, other).value;
            |hit.0| == POINTER_SIZE && c == "_" + Pack(hit.0) + hit.1
  {
    PackUndoesUnpack(c[1..], POINTER_SIZE);
    var hit := UnpackPointer(c, other).value;
    assert c[1..] == c[1..][..2 * POINTER_SIZE] + c[1..][2 * POINTER_SIZE..];
    assert c == [c[0]] + c[1..];
  }

  // ---------- on values ----------

  /** A byte is printed as the digit of its upper half and then that of its lower half. */
  lemma HighDigitFirst(b: Byte)
    ensures Pack([b]) == ["0123456789abcdef"[b as int / 16], "0123456789abcdef"[b as int % 16]]
  {
    Halves(b);
    assert Pack([b]) == PackByte(b) + [];
  }

  lemma Halves(b: Byte)
    ensures High(b) == b / 16 && Low(b) == b % 16 && High(b) as int == b as int / 16 && Low(b) as int == b as int % 16
  {
    var q, r := b / 16, b % 16;
    assert High(b) == q && Low(b) == r;
    assert b as int == 16 * (q as int) + r as int;
  }

  /** The text of the null pointer gives eight zero bytes and leaves the name. */
  lemma NullIsZero(name: string)
    ensures UnpackPointer("NULL", name) == Some(([0, 0, 0, 0, 0, 0, 0, 0], name))
  {
    assert seq(POINTER_SIZE, i => 0 as Byte) == [0, 0, 0, 0, 0, 0, 0, 0];
  }
}

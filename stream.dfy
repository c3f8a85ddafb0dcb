/** The byte stream the binary parser reads and the pure decoders over it
    (src/Compiler/BinaryParser.php). A stream is a value: the bytes, the
    position and the end-of-file flag. The class that updates a stream in
    place, and whose methods are proved against these decoders, is
    `Parser.BinaryParser`. */
module Stream {
  import opened Exceptions
  import opened Text
  import opened Token

  /** A readable, seekable stream. `eof` is set by a read that asks for more
      bytes than remain (this is `feof` after `fread`), and cleared by a seek.
      A relative seek may move the position past the end, as on a plain file. */
  datatype Cursor = Cursor(data: seq<byte>, pos: nat, eof: bool)

  /** A decoded value and the stream after it. */
  datatype Parsed<+T> = Parsed(v: T, next: Cursor)

  function Remaining(c: Cursor): nat {
    if c.pos < |c.data| then |c.data| - c.pos else 0
  }

  /** A measure that every read at a position before the end, and every read
      that sets `eof`, makes smaller. */
  function Rank(c: Cursor): nat {
    2 * Remaining(c) + (if c.eof then 0 else 1)
  }

  /** c2 is c read further: the same bytes, a later position, `eof` kept. */
  predicate Advanced(c: Cursor, c2: Cursor) {
    c2.data == c.data && c.pos <= c2.pos && (c.eof ==> c2.eof)
  }

  lemma AdvancedRank(c: Cursor, c2: Cursor)
    requires Advanced(c, c2)
    ensures Rank(c2) <= Rank(c)
  {
  }

  lemma AdvancedTrans(c1: Cursor, c2: Cursor, c3: Cursor)
    requires Advanced(c1, c2) && Advanced(c2, c3)
    ensures Advanced(c1, c3)
  {
  }

  /** `fread($stream, n)`: up to n bytes from the position; a short read sets
      `eof`. */
  function ReadN(c: Cursor, n: nat): (r: Parsed<seq<byte>>)
    ensures |r.v| == if n <= Remaining(c) then n else Remaining(c)
    ensures r.next == Cursor(c.data, c.pos + |r.v|, c.eof || n > Remaining(c))
    ensures r.v == Consumed(c, r.next)
  {
    var got := if n <= Remaining(c) then n else Remaining(c);
    var bytes := if got == 0 then [] else c.data[c.pos..c.pos + got];
    Parsed(bytes, Cursor(c.data, c.pos + got, c.eof || n > Remaining(c)))
  }

  /** The bytes between two positions of the same stream, as far as the
      stream holds them. */
  function Consumed(c: Cursor, c2: Cursor): seq<byte> {
    if c.pos <= c2.pos <= |c.data| then c.data[c.pos..c2.pos] else []
  }

  lemma ConsumedConcat(c1: Cursor, c2: Cursor, c3: Cursor)
    requires c1.data == c2.data == c3.data && c1.pos <= c2.pos <= c3.pos
    requires c3.pos <= |c1.data| || c2.pos == c3.pos
    ensures Consumed(c1, c3) == Consumed(c1, c2) + Consumed(c2, c3)
  {
    if c3.pos <= |c1.data| {
      assert c1.data[c1.pos..c3.pos] == c1.data[c1.pos..c2.pos] + c1.data[c2.pos..c3.pos];
    }
  }

  lemma ReadNAdvances(c: Cursor, n: nat)
    ensures Advanced(c, ReadN(c, n).next)
    ensures n > 0 ==> Rank(ReadN(c, n).next) < Rank(c) || (c.eof && Remaining(c) == 0)
  {
  }

  /** The stream holds `bytes` at its position. */
  predicate HoldsAt(c: Cursor, bytes: seq<byte>) {
    c.pos + |bytes| <= |c.data| && c.data[c.pos..c.pos + |bytes|] == bytes
  }

  /** The stream n bytes further on, without a read past the end. */
  function Ahead(c: Cursor, n: nat): Cursor {
    Cursor(c.data, c.pos + n, c.eof)
  }

  lemma AheadAhead(c: Cursor, m: nat, n: nat)
    ensures Ahead(Ahead(c, m), n) == Ahead(c, m + n)
  {
  }

  lemma HoldsAtSplit(c: Cursor, a: seq<byte>, b: seq<byte>)
    requires HoldsAt(c, a + b)
    ensures HoldsAt(c, a) && HoldsAt(Ahead(c, |a|), b)
  {
    assert c.data[c.pos..c.pos + |a|] == (a + b)[..|a|];
    assert c.data[c.pos + |a|..c.pos + |a| + |b|] == (a + b)[|a|..];
  }

  /** A read of one byte the stream holds. */
  lemma ReadHeld(c: Cursor, b: byte)
    requires HoldsAt(c, [b])
    ensures ReadN(c, 1) == Parsed([b], Ahead(c, 1)) && NextByte(c) == b
  {
    assert c.data[c.pos] == b;
  }

  /** `fseek($stream, $offset)` */
  function SeekSet(c: Cursor, offset: nat): (r: Cursor)
    ensures r.data == c.data && r.pos == offset && !r.eof
  {
    Cursor(c.data, offset, false)
  }

  /** `fseek($stream, $n, SEEK_CUR)` */
  function SeekCur(c: Cursor, n: nat): (r: Cursor)
    ensures Advanced(c, r) || c.eof
    ensures r.data == c.data && r.pos == c.pos + n && !r.eof
  {
    Cursor(c.data, c.pos + n, false)
  }

  /** The byte `ord(fread($stream, 1))` yields: 0 at the end of the stream. */
  function NextByte(c: Cursor): byte {
    Ord(ReadN(c, 1).v)
  }

  /** PHP's truthiness of the optional bounds: null and 0 are both false, so
      a bound of 0 is "no bound". */
  predicate ByteAccepted(v: byte, minIncl: byte, maxIncl: byte) {
    !(minIncl != 0 && v < minIncl) && !((maxIncl != 0 && v > maxIncl) || (minIncl != 0 && v != minIncl))
  }

  /** BinaryParser::expectByte */
  function ExpectByte(c: Cursor, minIncl: byte, maxIncl: byte): (r: Result<Parsed<byte>>)
    ensures r.Ok? ==> r.value.next == ReadN(c, 1).next && r.value.v == NextByte(c)
    ensures r.Err? ==> r.error == RuntimeException("Invalid value")
  {
    var read := ReadN(c, 1);
    var v := Ord(read.v);
    if ByteAccepted(v, minIncl, maxIncl) then Ok(Parsed(v, read.next))
    else Err(RuntimeException("Invalid value"))
  }

  /** With a non-zero minimum the byte must equal it. */
  lemma ExpectByteExact(c: Cursor, m: byte, maxIncl: byte)
    requires m != 0 && (maxIncl == 0 || m <= maxIncl)
    ensures ExpectByte(c, m, maxIncl).Ok? <==> NextByte(c) == m
  {
  }

  /** With no minimum the byte must not exceed a non-zero maximum. */
  lemma ExpectByteBounded(c: Cursor, maxIncl: byte)
    ensures ExpectByte(c, 0, maxIncl).Ok? <==> (maxIncl == 0 || NextByte(c) <= maxIncl)
  {
  }

  /** `expectByte(0x00)` checks nothing: 0 is no bound. */
  lemma ExpectByteZeroAcceptsAll(c: Cursor)
    ensures ExpectByte(c, 0, 0).Ok?
  {
  }

  lemma ExpectByteAdvances(c: Cursor, minIncl: byte, maxIncl: byte)
    ensures ExpectByte(c, minIncl, maxIncl).Ok? ==> Advanced(c, ExpectByte(c, minIncl, maxIncl).value.next)
  {
    ReadNAdvances(c, 1);
  }

  /** The lexing loop of expectInt: read single bytes, at most `width` of
      them, stopping after the first whose high bit is clear; the empty read
      at the end of the stream counts as such a byte (`ord("")` is 0). */
  function Lex(c: Cursor, width: nat): (r: Parsed<seq<byte>>)
    ensures |r.v| <= width
    decreases width
  {
    if width == 0 then Parsed([], c)
    else
      var read := ReadN(c, 1);
      if Ord(read.v) < 128 then Parsed(read.v, read.next)
      else
        var rest := Lex(read.next, width - 1);
        Parsed(read.v + rest.v, rest.next)
  }

  lemma {:induction false} LexAdvances(c: Cursor, width: nat)
    ensures Advanced(c, Lex(c, width).next)
    ensures Lex(c, width).v == Consumed(c, Lex(c, width).next)
    ensures Lex(c, width).next.pos == c.pos + |Lex(c, width).v|
    decreases width
  {
    if width > 0 {
      var read := ReadN(c, 1);
      if Ord(read.v) >= 128 {
        var rest := Lex(read.next, width - 1);
        LexAdvances(read.next, width - 1);
        assert |read.v| == 1;
        assert rest.next.pos <= |c.data| || |rest.v| == 0 by {
          if |rest.v| > 0 {
            assert Consumed(read.next, rest.next) != [];
          }
        }
        ConsumedConcat(c, read.next, rest.next);
      }
    }
  }

  /** All bytes read but the last have their high bit set: the loop stops at
      the first byte whose high bit is clear. */
  lemma {:induction false} LexStopsAtFirstClear(c: Cursor, width: nat)
    ensures forall k :: 0 <= k < |Lex(c, width).v| - 1 ==> Lex(c, width).v[k] >= 128
    decreases width
  {
    if width > 0 {
      var read := ReadN(c, 1);
      if Ord(read.v) >= 128 {
        var rest := Lex(read.next, width - 1);
        LexStopsAtFirstClear(read.next, width - 1);
        var raw := read.v + rest.v;
        assert |read.v| == 1 && read.v[0] >= 128;
        forall k | 0 <= k < |raw| - 1 ensures raw[k] >= 128 {
          if k == 0 {
            assert raw[0] == read.v[0];
          } else {
            assert raw[k] == rest.v[k - 1];
            assert k - 1 < |rest.v| - 1;
          }
        }
      }
    }
  }

  /** A well-formed encoding at the position that fits the width is lexed
      exactly. */
  lemma {:induction false} LexWellFormed(c: Cursor, width: nat, enc: seq<byte>)
    requires WellFormed(enc) && |enc| <= width && HoldsAt(c, enc)
    ensures Lex(c, width) == Parsed(enc, Ahead(c, |enc|))
    decreases width
  {
    var b, rest := enc[0], enc[1..];
    assert enc == [b] + rest;
    HoldsAtSplit(c, [b], rest);
    ReadHeld(c, b);
    if rest != [] {
      assert b >= 128;
      assert WellFormed(rest) by {
        forall k | 0 <= k < |rest| - 1 ensures rest[k] >= 128 {
          assert rest[k] == enc[k + 1];
        }
        assert rest[|rest| - 1] == enc[|enc| - 1];
      }
      LexWellFormed(Ahead(c, 1), width - 1, rest);
      assert Lex(c, width) == Parsed([b] + rest, Ahead(Ahead(c, 1), |rest|));
    }
  }

  /** How many single-byte reads the source's loop `for ($i = 0; $i < $bits / 8; $i++)`
      makes: PHP's `/` is real division, so that is ceil(bits / 8). */
  function WidthAsWritten(bits: nat): nat {
    (bits + 7) / 8
  }

  /** The number of bytes an N-bit LEB128 integer may take: ceil(N / 7). */
  function Width(bits: nat): nat {
    (bits + 6) / 7
  }

  /** The last character of the lexed string, as `ord(substr($value, -1))`. */
  function LastOrd(raw: seq<byte>): byte {
    if raw == [] then 0 else raw[|raw| - 1]
  }

  /** BinaryParser::expectInt when it reads `width` bytes at most: lex, reject
      a last byte that still has its high bit set, decode as LEB128. */
  function ExpectIntWithin(c: Cursor, unsigned: bool, width: nat): (r: Result<Parsed<int>>)
    ensures r.Err? ==> r.error == RuntimeException("Invalid integer provided")
    ensures r.Ok? && unsigned ==> r.value.v >= 0
    ensures r.Ok? ==> Advanced(c, r.value.next)
  {
    var lexed := Lex(c, width);
    LexAdvances(c, width);
    if LastOrd(lexed.v) >= 128 then Err(RuntimeException("Invalid integer provided"))
    else
      var tokenType := if unsigned then UINT_TYPE else INT_TYPE;
      match Decode(tokenType, lexed.v)
      case Ok(IntValue(x)) => Ok(Parsed(x, lexed.next))
      case _ => assert false; Err(RuntimeException("Invalid integer provided"))
  }

  /** expectInt as written: at most ceil(bits / 8) bytes. */
  function ExpectIntAsWritten(c: Cursor, unsigned: bool, bits: nat): Result<Parsed<int>> {
    ExpectIntWithin(c, unsigned, WidthAsWritten(bits))
  }

  /** expectInt with the width LEB128 needs: at most ceil(bits / 7) bytes. */
  function ExpectInt(c: Cursor, unsigned: bool, bits: nat): Result<Parsed<int>> {
    ExpectIntWithin(c, unsigned, Width(bits))
  }

  /** The decoded value is the LEB128 value of the bytes lexed, which are
      the bytes between the old and the new position; the read fails exactly
      when the last of them has its high bit set. */
  lemma ExpectIntDecodes(c: Cursor, unsigned: bool, width: nat)
    ensures var lexed := Lex(c, width);
      ExpectIntWithin(c, unsigned, width).Ok? <==> LastOrd(lexed.v) < 128
    ensures var r := ExpectIntWithin(c, unsigned, width);
      r.Ok? ==> (r.value.v == Leb128(Consumed(c, r.value.next), !unsigned)
                 && Advanced(c, r.value.next))
  {
    LexAdvances(c, width);
  }

  /** At the end of the stream expectInt reads 0 without failing. */
  lemma ExpectIntAtEnd(c: Cursor, unsigned: bool, width: nat)
    requires Remaining(c) == 0 && width > 0
    ensures ExpectIntWithin(c, unsigned, width) == Ok(Parsed(0, Cursor(c.data, c.pos, true)))
  {
    var lexed := Lex(c, width);
    assert lexed.v == [];
  }

  /** An LEB128 encoding of `n` that a 32-bit read accepts: well formed
      and at most ceil(32 / 7) = 5 bytes long. Such encodings need not be
      the shortest. */
  predicate U32Encoding(enc: seq<byte>, n: nat) {
    WellFormed(enc) && |enc| <= 5 && Leb128(enc, false) == n
  }

  /** The standard encoding of a 32-bit value is one of them. */
  lemma StandardU32Encoding(n: nat)
    requires n < 0x1_0000_0000
    ensures U32Encoding(EncodeU(n), n)
  {
    Pow2Values();
    EncodeULength(n, 5);
    EncodeUWellFormed(n);
    RoundTripU(n);
  }

  /** A 32-bit encoding lying ahead of the cursor is read back. */
  lemma ExpectU32Held(c: Cursor, enc: seq<byte>, n: nat)
    requires U32Encoding(enc, n) && HoldsAt(c, enc)
    ensures ExpectInt(c, true, 32) == Ok(Parsed(n as int, Ahead(c, |enc|)))
  {
    assert Width(32) == 5;
    ExpectWithinHeld(c, enc, 5, false);
  }

  /** A well-formed encoding no longer than the width is read back. */
  lemma ExpectWithinHeld(c: Cursor, enc: seq<byte>, width: nat, signed: bool)
    requires WellFormed(enc) && |enc| <= width && HoldsAt(c, enc)
    ensures ExpectIntWithin(c, !signed, width) == Ok(Parsed(Leb128(enc, signed), Ahead(c, |enc|)))
  {
    LexWellFormed(c, width, enc);
  }

  /** A byte lying ahead that the bounds accept is read. */
  lemma ExpectByteHeld(c: Cursor, b: byte, minIncl: byte, maxIncl: byte)
    requires HoldsAt(c, [b]) && ByteAccepted(b, minIncl, maxIncl)
    ensures ExpectByte(c, minIncl, maxIncl) == Ok(Parsed(b, Ahead(c, 1)))
  {
    ReadHeld(c, b);
  }

  /** A signed LEB128 encoding of `v` that a read of `bits` bits accepts:
      well formed and at most ceil(bits / 7) bytes long. */
  predicate SEncoding(enc: seq<byte>, v: int, bits: nat) {
    WellFormed(enc) && |enc| <= Width(bits) && Leb128(enc, true) == v
  }

  /** A signed encoding lying ahead of the cursor is read back. */
  lemma ExpectSHeld(c: Cursor, enc: seq<byte>, v: int, bits: nat)
    requires SEncoding(enc, v, bits) && HoldsAt(c, enc)
    ensures ExpectInt(c, false, bits) == Ok(Parsed(v, Ahead(c, |enc|)))
  {
    ExpectWithinHeld(c, enc, Width(bits), true);
  }

  /** The standard encoding of a 32-bit signed value qualifies for 32 bits. */
  lemma StandardS32Encoding(v: int)
    requires -0x8000_0000 <= v < 0x8000_0000
    ensures SEncoding(EncodeS(v), v, 32)
  {
    Pow2Values();
    EncodeSLength(v, 5);
    EncodeSWellFormed(v);
    RoundTripS(v);
  }

  /** The standard encoding of a u32 value, read as a signed 33-bit
      integer, qualifies: 33 bits hold every u32 value as a positive one. */
  lemma StandardS33Encoding(v: nat)
    requires v < 0x1_0000_0000
    ensures SEncoding(EncodeS(v), v, 33)
  {
    Pow2Values();
    EncodeSLength(v, 5);
    EncodeSWellFormed(v);
    RoundTripS(v);
  }

  /** The standard encoding of a 64-bit signed value qualifies for 64 bits. */
  lemma StandardS64Encoding(v: int)
    requires -(Pow2(63) as int) <= v < Pow2(63)
    ensures SEncoding(EncodeS(v), v, 64)
  {
    EncodeSLength(v, 10);
    EncodeSWellFormed(v);
    RoundTripS(v);
  }

  /** The unsigned encoding of a value below 2^(7k) takes at most k bytes. */
  lemma {:induction false} EncodeULength(n: nat, k: nat)
    requires k >= 1 && n < Pow2(7 * k)
    ensures |EncodeU(n)| <= k
  {
    Pow2Step(0);
    if n >= 128 {
      Pow2Step(k - 1);
      EncodeULength(n / 128, k - 1);
    }
  }

  /** The signed encoding of a value in [-2^(7k-1), 2^(7k-1)) takes at most k bytes. */
  lemma {:induction false} EncodeSLength(v: int, k: nat)
    requires k >= 1 && -(64 * Pow2(7 * (k - 1))) <= v < 64 * Pow2(7 * (k - 1))
    ensures |EncodeS(v)| <= k
    decreases k
  {
    if !(-64 <= v < 64) {
      Pow2Step(k - 2);
      EncodeSLength(v / 128, k - 1);
    }
  }

  /** u32 2^28 takes five bytes, and expectInt as written rejects it. */
  lemma ExpectIntAsWrittenRejects()
    ensures var c := Cursor([0x80, 0x80, 0x80, 0x80, 0x01], 0, false);
      ExpectIntAsWritten(c, true, 32).Err? && ExpectInt(c, true, 32) == Ok(Parsed(Pow2(28), Cursor(c.data, 5, false)))
  {
    var c := Cursor([0x80, 0x80, 0x80, 0x80, 0x01], 0, false);
    AsWrittenStopsShort(c);
    TwoPow28Read(c);
  }

  lemma AsWrittenStopsShort(c: Cursor)
    requires c == Cursor([0x80, 0x80, 0x80, 0x80, 0x01], 0, false)
    ensures ExpectIntAsWritten(c, true, 32).Err?
  {
    LexFourContinuations(c);
  }

  lemma TwoPow28Read(c: Cursor)
    requires c == Cursor([0x80, 0x80, 0x80, 0x80, 0x01], 0, false)
    ensures ExpectInt(c, true, 32) == Ok(Parsed(Pow2(28), Ahead(c, 5)))
  {
    TwoPow28Accepted();
    assert HoldsAt(c, c.data);
    ExpectU32Held(c, c.data, Pow2(28));
  }

  /** The five bytes 80 80 80 80 01 are the standard encoding of 2^28, and
      a 32-bit read accepts them. */
  lemma TwoPow28Accepted()
    ensures U32Encoding([0x80, 0x80, 0x80, 0x80, 0x01], Pow2(28))
  {
    Pow2Values();
    EncodeTwoPow28();
    StandardU32Encoding(Pow2(28));
  }

  lemma LexFourContinuations(c: Cursor)
    requires c == Cursor([0x80, 0x80, 0x80, 0x80, 0x01], 0, false)
    ensures LastOrd(Lex(c, WidthAsWritten(32)).v) == 0x80
  {
    assert WidthAsWritten(32) == 4;
    var c1, c2, c3 := Cursor(c.data, 1, false), Cursor(c.data, 2, false), Cursor(c.data, 3, false);
    assert c.data[0..1] == [0x80] && c.data[1..2] == [0x80] && c.data[2..3] == [0x80] && c.data[3..4] == [0x80];
    assert ReadN(c, 1) == Parsed([0x80], c1);
    assert ReadN(c1, 1) == Parsed([0x80], c2);
    assert ReadN(c2, 1) == Parsed([0x80], c3);
    assert ReadN(c3, 1) == Parsed([0x80], Cursor(c.data, 4, false));
    assert Lex(Cursor(c.data, 4, false), 0).v == [];
    assert Lex(c3, 1).v == [0x80];
  }

  lemma EncodeTwoPow28()
    ensures EncodeU(268435456) == [0x80, 0x80, 0x80, 0x80, 0x01]
  {
    assert EncodeU(1) == [1];
    assert EncodeU(128) == [0x80, 1];
    assert EncodeU(16384) == [0x80, 0x80, 1];
    assert EncodeU(2097152) == [0x80, 0x80, 0x80, 1];
  }

  /** The utf-8 validity `mb_check_encoding($s, 'UTF-8')` checks: shortest
      forms only, no surrogates, nothing above U+10FFFF. */
  predicate Utf8(s: seq<byte>)
    decreases |s|
  {
    if s == [] then true
    else
      var n := Utf8SeqLen(s);
      n > 0 && n <= |s| && Utf8(s[n..])
  }

  predicate Cont(b: byte) { 0x80 <= b <= 0xBF }

  /** The length of the well-formed utf-8 sequence at the front of s, 0 if
      there is none. */
  function Utf8SeqLen(s: seq<byte>): (n: nat)
    requires s != []
    ensures n <= 4 && (n > 0 ==> n <= |s|)
  {
    var b := s[0];
    if b < 0x80 then 1
    else if 0xC2 <= b <= 0xDF then (if |s| >= 2 && Cont(s[1]) then 2 else 0)
    else if 0xE0 <= b <= 0xEF then
      if |s| >= 3 && Cont(s[2])
         && (if b == 0xE0 then 0xA0 <= s[1] <= 0xBF else if b == 0xED then 0x80 <= s[1] <= 0x9F else Cont(s[1]))
      then 3 else 0
    else if 0xF0 <= b <= 0xF4 then
      if |s| >= 4 && Cont(s[2]) && Cont(s[3])
         && (if b == 0xF0 then 0x90 <= s[1] <= 0xBF else if b == 0xF4 then 0x80 <= s[1] <= 0x8F else Cont(s[1]))
      then 4 else 0
    else 0
  }

  lemma {:induction false} AsciiIsUtf8(s: seq<byte>)
    requires forall k :: 0 <= k < |s| ==> s[k] < 0x80
    ensures Utf8(s)
    decreases |s|
  {
    if s != [] {
      AsciiIsUtf8(s[1..]);
    }
  }

  /** BinaryParser::expectString with the default pattern `//`, which every
      string matches: a u32 length, then that many bytes, which must be
      valid utf-8. A short read at the end of the stream yields fewer bytes. */
  function ExpectString(c: Cursor): (r: Result<Parsed<seq<byte>>>)
    ensures r.Ok? ==> Utf8(r.value.v)
    ensures r.Err? ==> (r.error == RuntimeException("Invalid integer provided")
                        || r.error == UnexpectedValueException("Invalid utf8 string"))
  {
    var size :- ExpectInt(c, true, 32);
    if size.v == 0 then Ok(Parsed([], size.next))
    else
      var read := ReadN(size.next, size.v);
      if Utf8(read.v) then Ok(Parsed(read.v, read.next))
      else Err(UnexpectedValueException("Invalid utf8 string"))
  }

  /** The name is the bytes right after the length, as many as the length
      says when the stream holds them. */
  lemma ExpectStringReads(c: Cursor)
    ensures var r := ExpectString(c);
      r.Ok? ==> var size := ExpectInt(c, true, 32).value;
        (Advanced(c, r.value.next) && r.value.v == Consumed(size.next, r.value.next)
         && (size.v <= Remaining(size.next) ==> |r.value.v| == size.v))
  {
    LexAdvances(c, Width(32));
    var size := ExpectInt(c, true, 32);
    if size.Ok? {
      ReadNAdvances(size.value.next, size.value.v);
    }
  }

  /** A read of bytes the stream holds. */
  lemma ReadManyHeld(c: Cursor, bytes: seq<byte>)
    requires HoldsAt(c, bytes)
    ensures ReadN(c, |bytes|) == Parsed(bytes, Ahead(c, |bytes|))
  {
  }

  /** The name is the length and then the bytes, as the stream yields them. */
  lemma ExpectStringParts(c: Cursor, s: seq<byte>, c1: Cursor, c2: Cursor)
    requires ExpectInt(c, true, 32) == Ok(Parsed(|s|, c1))
    requires ReadN(c1, |s|) == Parsed(s, c2) && Utf8(s)
    ensures ExpectString(c) == Ok(Parsed(s, c2))
  {
  }

  /** A name lying ahead of the cursor, its length first, is read back
      when it is valid UTF-8. */
  lemma ExpectStringHeld(c: Cursor, len: seq<byte>, s: seq<byte>)
    requires U32Encoding(len, |s|) && HoldsAt(c, len) && HoldsAt(Ahead(c, |len|), s) && Utf8(s)
    ensures ExpectString(c) == Ok(Parsed(s, Ahead(Ahead(c, |len|), |s|)))
  {
    ExpectU32Held(c, len, |s|);
    ReadManyHeld(Ahead(c, |len|), s);
    ExpectStringParts(c, s, Ahead(c, |len|), Ahead(Ahead(c, |len|), |s|));
  }

  /** BinaryParser::expectFloat: bits/8 raw bytes; the value is not
      interpreted. */
  function ExpectFloat(c: Cursor, bits: nat): (r: Parsed<seq<byte>>)
    ensures |r.v| <= bits / 8 && Advanced(c, r.next)
  {
    ReadN(c, bits / 8)
  }

  /** An element decoder for a vector: given a context, the stream and the
      element index, it decodes one element. */
  type ElemFn<!X, T> = (X, Cursor, nat) -> Result<Parsed<T>>

  /** The elements i, i+1, ..., size-1 of a vector, appended to `acc`. */
  function VectorFrom<X, T>(x: X, c: Cursor, elem: ElemFn<X, T>, i: nat, size: nat, acc: seq<T>)
    : (r: Result<Parsed<seq<T>>>)
    ensures r.Ok? ==> |r.value.v| == |acc| + (if i <= size then size - i else 0)
    ensures r.Ok? ==> r.value.v[..|acc|] == acc
    decreases if i <= size then size - i else 0
  {
    if i >= size then Ok(Parsed(acc, c))
    else
      var e :- elem(x, c, i);
      VectorFrom(x, e.next, elem, i + 1, size, acc + [e.v])
  }

  /** One step of the element loop. */
  lemma VectorFromStep<X, T>(x: X, c: Cursor, elem: ElemFn<X, T>, i: nat, size: nat, acc: seq<T>, v: T, next: Cursor)
    requires i < size && elem(x, c, i) == Ok(Parsed(v, next))
    ensures VectorFrom(x, c, elem, i, size, acc) == VectorFrom(x, next, elem, i + 1, size, acc + [v])
  {
  }

  /** BinaryParser::expectVector: a u32 count, then the element function
      called once for each index 0 .. count-1, in order. */
  function Vector<X, T>(x: X, c: Cursor, elem: ElemFn<X, T>): (r: Result<Parsed<seq<T>>>)
    ensures r.Ok? ==> ExpectInt(c, true, 32).Ok? && |r.value.v| == ExpectInt(c, true, 32).value.v
  {
    var size :- ExpectInt(c, true, 32);
    VectorFrom(x, size.next, elem, 0, size.v as nat, [])
  }

  /** An element decoder that only reads forward. */
  ghost predicate ReadsForward<X, T>(x: X, elem: ElemFn<X, T>) {
    forall c, i :: elem(x, c, i).Ok? ==> Advanced(c, elem(x, c, i).value.next)
  }

  lemma {:induction false} VectorFromAdvances<X, T>(x: X, c: Cursor, elem: ElemFn<X, T>, i: nat, size: nat, acc: seq<T>)
    requires ReadsForward(x, elem)
    ensures var r := VectorFrom(x, c, elem, i, size, acc); r.Ok? ==> Advanced(c, r.value.next)
    decreases if i <= size then size - i else 0
  {
    if i < size {
      var e := elem(x, c, i);
      if e.Ok? {
        VectorFromAdvances(x, e.value.next, elem, i + 1, size, acc + [e.value.v]);
      }
    }
  }

  lemma VectorAdvances<X, T>(x: X, c: Cursor, elem: ElemFn<X, T>)
    requires ReadsForward(x, elem)
    ensures var r := Vector(x, c, elem); r.Ok? ==> Advanced(c, r.value.next)
  {
    var size := ExpectInt(c, true, 32);
    ExpectIntDecodes(c, true, Width(32));
    if size.Ok? {
      VectorFromAdvances(x, size.value.next, elem, 0, size.value.v as nat, []);
    }
  }

  /** Where the element loop stands before index k, having started at
      index i on `c`: the stream each element left for the next. */
  function VectorCursor<X, T>(x: X, c: Cursor, elem: ElemFn<X, T>, i: nat, k: nat): Cursor
    decreases if i <= k then k - i else 0
  {
    if i >= k then c
    else
      match elem(x, c, i)
      case Ok(e) => VectorCursor(x, e.next, elem, i + 1, k)
      case Err(_) => c
  }

  /** Element k of a vector is what the element function decodes at index k
      from the stream the first k elements left: the elements come in order. */
  lemma {:induction false} VectorFromElement<X, T>(x: X, c: Cursor, elem: ElemFn<X, T>, i: nat, size: nat, acc: seq<T>, k: nat)
    requires i <= k < size
    requires VectorFrom(x, c, elem, i, size, acc).Ok?
    ensures var ck := VectorCursor(x, c, elem, i, k);
      elem(x, ck, k).Ok? && VectorFrom(x, c, elem, i, size, acc).value.v[|acc| + k - i] == elem(x, ck, k).value.v
    decreases size - i
  {
    var e := elem(x, c, i);
    if k == i {
      assert VectorFrom(x, e.value.next, elem, i + 1, size, acc + [e.value.v]).value.v[..|acc| + 1] == acc + [e.value.v];
    } else {
      assert VectorCursor(x, c, elem, i, k) == VectorCursor(x, e.value.next, elem, i + 1, k);
      VectorFromElement(x, e.value.next, elem, i + 1, size, acc + [e.value.v], k);
    }
  }

  /** Element k of a vector is what the element function decodes at index k
      from the stream the first k elements left after the count. */
  lemma VectorElement<X, T>(x: X, c: Cursor, elem: ElemFn<X, T>, k: nat) returns (ck: Cursor)
    requires Vector(x, c, elem).Ok? && k < |Vector(x, c, elem).value.v|
    ensures ck == VectorCursor(x, ExpectInt(c, true, 32).value.next, elem, 0, k)
    ensures elem(x, ck, k).Ok? && Vector(x, c, elem).value.v[k] == elem(x, ck, k).value.v
  {
    var size := ExpectInt(c, true, 32).value;
    VectorFromElement(x, size.next, elem, 0, size.v as nat, [], k);
    ck := VectorCursor(x, size.next, elem, 0, k);
  }

  /** The message of assertSize's exception. */
  function SizeMismatch(size: nat, contents: int): string {
    "Expected size " + NatToString(size) + " does not match contents size "
    + (if contents < 0 then "-" + NatToString(-contents) else NatToString(contents))
  }

  /** A body decoder for a size-prefixed region: the context, the stream, the
      start position and the declared size. */
  type BodyFn<!X, T> = (X, Cursor, nat, nat) -> Result<Parsed<T>>

  /** BinaryParser::assertSize: a u32 size, then the body, whose length must
      equal the size unless the size is 0. */
  function AssertSize<X, T>(x: X, c: Cursor, inner: BodyFn<X, T>): (r: Result<Parsed<T>>)
  {
    var size :- ExpectInt(c, true, 32);
    SizeChecked(inner(x, size.next, size.next.pos, size.v as nat), size.next.pos, size.v as nat)
  }

  /** assertSize's check of a body read from `start`: unless the size is 0,
      the body must have read exactly `size` bytes. */
  function SizeChecked<T>(body: Result<Parsed<T>>, start: nat, size: nat): (r: Result<Parsed<T>>)
  {
    match body
    case Err(e) => Err(e)
    case Ok(b) =>
      var contents := b.next.pos - start;
      if size != 0 && size != contents then Err(UnexpectedValueException(SizeMismatch(size, contents)))
      else Ok(b)
  }

  /** assertSize accepts a non-empty body exactly when the body reads
      exactly the declared number of bytes, and never checks a size of 0. */
  lemma AssertSizeChecks<X, T>(x: X, c: Cursor, inner: BodyFn<X, T>)
    requires ExpectInt(c, true, 32).Ok?
    ensures var size := ExpectInt(c, true, 32).value;
      var body := inner(x, size.next, size.next.pos, size.v as nat);
      body.Ok? ==>
        (AssertSize(x, c, inner).Ok? <==> (size.v == 0 || body.value.next.pos == size.next.pos + size.v))
  {
  }

  /** "\0asm" */
  const MAGIC: seq<byte> := [0x00, 0x61, 0x73, 0x6D]

  /** `unpack('V', $s)`: a little-endian u32, or nothing when fewer than four
      bytes were read. */
  function UnpackV(s: seq<byte>): Option<nat> {
    if |s| < 4 then None
    else Some(s[0] as int + 256 * (s[1] as int) + 65536 * (s[2] as int) + 16777216 * (s[3] as int))
  }

  /** BinaryParser::scanHeader */
  function ScanHeader(c: Cursor): (r: Result<Cursor>)
    ensures r.Ok? <==> (|c.data| >= c.pos + 8 && c.data[c.pos..c.pos + 4] == MAGIC
                        && c.data[c.pos + 4..c.pos + 8] == [1, 0, 0, 0])
    ensures r.Ok? ==> r.value == Cursor(c.data, c.pos + 8, c.eof)
    ensures r.Err? ==> r.error.InvalidArgumentException?
  {
    var magic := ReadN(c, 4);
    if magic.v != MAGIC then
      Err(InvalidArgumentException("Provided stream does not represent a valid binary webassembly source"))
    else
      var version := ReadN(magic.next, 4);
      if UnpackV(version.v) != Some(1) then
        Err(InvalidArgumentException("Only version 1 binary webassembly is supported"))
      else
        Ok(version.next)
  }
}

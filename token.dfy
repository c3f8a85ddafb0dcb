/** Decoding of the raw bytes of one lexical token of the binary format
    (src/Compiler/Binary/Token.php): single bytes, names, floats kept as
    their raw bytes, and signed or unsigned LEB128 integers. */
module Token {
  import opened Exceptions

  type byte = x: int | 0 <= x < 256

  /** The token type codes of the source. */
  const BYTE_TYPE: int := 0
  const STRING_TYPE: int := 1
  const FLOAT_TYPE: int := 0x7D
  const FLOAT_64_TYPE: int := 0x7C
  const INT_TYPE: int := 0x7F
  const INT_64_TYPE: int := 0x7E
  const UINT_TYPE: int := 6
  const UINT_64_TYPE: int := 7

  /** The character '0', the one non-empty string PHP treats as false. */
  const ZERO_CHAR: byte := 0x30

  function Pow2(n: nat): (r: nat)
    ensures r >= 1
  {
    if n == 0 then 1 else 2 * Pow2(n - 1)
  }

  lemma {:induction false} Pow2Add(a: nat, b: nat)
    ensures Pow2(a + b) == Pow2(a) * Pow2(b)
  {
    if a > 0 {
      Pow2Add(a - 1, b);
      assert Pow2(a + b) == 2 * Pow2(a - 1 + b);
    }
  }

  lemma Pow2Step(k: nat)
    ensures Pow2(7 * (k + 1)) == 128 * Pow2(7 * k)
  {
    Pow2Add(7, 7 * k);
    assert Pow2(7) == 128;
  }

  lemma {:induction false} Pow2Mono(a: nat, b: nat)
    requires a <= b
    ensures Pow2(a) <= Pow2(b)
  {
    if a < b {
      Pow2Mono(a, b - 1);
    }
  }

  lemma Pow2Values()
    ensures Pow2(7) == 128 && Pow2(14) == 16384 && Pow2(28) == 268435456
    ensures Pow2(35) == 34359738368
  {
    Pow2Step(0);
    Pow2Add(7, 7);
    Pow2Add(14, 14);
    Pow2Add(28, 7);
  }

  /** `ord($c) & 0x40 != 0`: bit 6 of a byte, the sign bit of a LEB128 group. */
  predicate SignBit(b: byte) {
    (b / 64) % 2 == 1
  }

  /** The payload groups `raw[k] & 0x7f` placed at `7 * k`; the bitwise ORs
      of the source are sums here because the groups never overlap. */
  function Groups(raw: seq<byte>): nat {
    if raw == [] then 0 else raw[0] % 128 + 128 * Groups(raw[1..])
  }

  lemma {:induction false} GroupsBound(raw: seq<byte>)
    ensures Groups(raw) < Pow2(7 * |raw|)
  {
    if raw != [] {
      GroupsBound(raw[1..]);
      Pow2Step(|raw| - 1);
    }
  }

  lemma MulSwap(a: int, b: int, c: int)
    ensures a * (b * c) == b * (a * c)
  {
  }

  /** Appending a byte adds its group at the next seven-bit position: the
      step of the source's front-to-back loop. */
  lemma {:induction false} GroupsSnoc(raw: seq<byte>, b: byte)
    ensures Groups(raw + [b]) == Groups(raw) + (b % 128) * Pow2(7 * |raw|)
  {
    if raw == [] {
      assert [b][1..] == [];
    } else {
      var rest := raw[1..];
      var g, p := b % 128, Pow2(7 * |rest|);
      var q := g * p;
      assert (raw + [b])[0] == raw[0] && (raw + [b])[1..] == rest + [b];
      GroupsSnoc(rest, b);
      assert Groups(rest + [b]) == Groups(rest) + q;
      Pow2Step(|rest|);
      assert g * Pow2(7 * |raw|) == 128 * q by {
        assert Pow2(7 * |raw|) == 128 * p;
        MulSwap(g, 128, p);
      }
    }
  }

  /** The value of a LEB128 byte string: the groups, minus 2^(7n) when the
      sign bit of the last byte is set and the integer is signed (the
      source's `x |= -(1 << 7n)` is this subtraction because x < 2^(7n)). */
  function Leb128(raw: seq<byte>, signed: bool): int {
    var x := Groups(raw);
    if signed && |raw| > 0 && SignBit(raw[|raw| - 1]) then x - Pow2(7 * |raw|) else x
  }

  /** The source's decoder as written: its loop runs `while ($raw)`, and PHP
      treats the remaining string "0" as false, so a final byte 0x30 is never
      added; the sign is still taken from that final byte, whose bit 6 is clear. */
  function Leb128AsWritten(raw: seq<byte>, signed: bool): int {
    if |raw| > 0 && raw[|raw| - 1] == ZERO_CHAR then Groups(raw[..|raw| - 1])
    else Leb128(raw, signed)
  }

  /** The as-written decoder agrees with the LEB128 value exactly when the
      last byte is not the character '0'. */
  lemma AsWrittenAgrees(raw: seq<byte>, signed: bool)
    ensures Leb128AsWritten(raw, signed) == Leb128(raw, signed)
        <==> (|raw| == 0 || raw[|raw| - 1] != ZERO_CHAR)
  {
    if |raw| > 0 && raw[|raw| - 1] == ZERO_CHAR {
      var init := raw[..|raw| - 1];
      assert raw == init + [ZERO_CHAR];
      GroupsSnoc(init, ZERO_CHAR);
      assert !SignBit(ZERO_CHAR);
    }
  }

  /** i32.const 48 is encoded as the single byte 0x30 and the source reads 0. */
  lemma AsWrittenDropsFortyEight()
    ensures Leb128([0x30], true) == 48
    ensures Leb128AsWritten([0x30], true) == 0
  {
    assert [0x30 as byte][1..] == [];
    assert ([0x30 as byte])[..0] == [];
  }

  /** An unsigned decode is never negative and fits the bytes read. */
  lemma UnsignedRange(raw: seq<byte>)
    ensures 0 <= Leb128(raw, false) < Pow2(7 * |raw|)
  {
    GroupsBound(raw);
  }

  /** A signed decode of n bytes lies in the two's-complement range of 7n
      bits, and is negative exactly when the last sign bit is set. */
  lemma SignedRange(raw: seq<byte>)
    requires |raw| > 0
    ensures var half: int := 64 * Pow2(7 * (|raw| - 1));
      -half <= Leb128(raw, true) < half
    ensures Leb128(raw, true) < 0 <==> SignBit(raw[|raw| - 1])
  {
    var n := |raw|;
    var init, b := raw[..n - 1], raw[n - 1];
    assert raw == init + [b];
    GroupsSnoc(init, b);
    GroupsBound(init);
    Pow2Step(n - 1);
    LastGroupBounds(Groups(init), b, Pow2(7 * (n - 1)));
  }

  /** The arithmetic step of SignedRange: the last group decides the sign. */
  lemma LastGroupBounds(low: nat, b: byte, p: nat)
    requires low < p
    ensures SignBit(b) ==> 64 * p <= low + (b % 128) * p < 128 * p
    ensures !SignBit(b) ==> low + (b % 128) * p < 64 * p
  {
    var g := b % 128;
    assert SignBit(b) <==> g >= 64;
    if SignBit(b) {
      MulLe(64, g, p);
      MulLe(g, 127, p);
    } else {
      MulLe(g, 63, p);
    }
  }

  lemma {:induction false} MulLe(a: nat, b: nat, p: nat)
    requires a <= b
    ensures a * p <= b * p
  {
    if p > 0 {
      MulLe(a, b, p - 1);
      assert a * p == a * (p - 1) + a;
      assert b * p == b * (p - 1) + b;
    }
  }

  /** Standard unsigned LEB128 encoding: continuation bit on every byte but
      the last. */
  function EncodeU(n: nat): (raw: seq<byte>)
    ensures |raw| >= 1
  {
    if n < 128 then [n] else [n % 128 + 128] + EncodeU(n / 128)
  }

  /** Standard signed LEB128 encoding: the shortest one whose last sign bit
      carries the sign. */
  function EncodeS(v: int): (raw: seq<byte>)
    ensures |raw| >= 1
    decreases if v < 0 then -v else v
  {
    if -64 <= v < 64 then [v % 128] else [v % 128 + 128] + EncodeS(v / 128)
  }

  /** Every byte of an encoding but the last has its high bit set. */
  predicate WellFormed(raw: seq<byte>) {
    |raw| >= 1 && raw[|raw| - 1] < 128 && forall k :: 0 <= k < |raw| - 1 ==> raw[k] >= 128
  }

  lemma {:induction false} EncodeUWellFormed(n: nat)
    ensures WellFormed(EncodeU(n))
  {
    if n >= 128 {
      EncodeUWellFormed(n / 128);
    }
  }

  lemma {:induction false} EncodeSWellFormed(v: int)
    ensures WellFormed(EncodeS(v))
    decreases if v < 0 then -v else v
  {
    if !(-64 <= v < 64) {
      EncodeSWellFormed(v / 128);
    }
  }

  lemma {:induction false} GroupsEncodeU(n: nat)
    ensures Groups(EncodeU(n)) == n
  {
    if n >= 128 {
      var raw := EncodeU(n);
      assert raw[1..] == EncodeU(n / 128);
      GroupsEncodeU(n / 128);
    }
  }

  /** Decoding an unsigned encoding gives back the number. */
  lemma RoundTripU(n: nat)
    ensures Leb128(EncodeU(n), false) == n
  {
    GroupsEncodeU(n);
  }

  /** The last byte of a signed encoding carries the sign. */
  lemma {:induction false} SignEncodeS(v: int)
    ensures var raw := EncodeS(v); SignBit(raw[|raw| - 1]) <==> v < 0
    decreases if v < 0 then -v else v
  {
    var raw := EncodeS(v);
    if !(-64 <= v < 64) {
      var rest := EncodeS(v / 128);
      assert raw[|raw| - 1] == rest[|rest| - 1];
      SignEncodeS(v / 128);
      assert v / 128 < 0 <==> v < 0;
    }
  }

  lemma {:induction false} GroupsEncodeS(v: int)
    ensures var raw := EncodeS(v);
      Groups(raw) == (if v < 0 then v + Pow2(7 * |raw|) else v)
    decreases if v < 0 then -v else v
  {
    var raw := EncodeS(v);
    if -64 <= v < 64 {
      assert raw[1..] == [];
    } else {
      var q, m := v / 128, v % 128;
      var rest := EncodeS(q);
      assert raw[1..] == rest;
      assert Groups(raw) == m + 128 * Groups(rest);
      GroupsEncodeS(q);
      Pow2Step(|rest|);
      var p := Pow2(7 * |rest|);
      assert 128 * (q + p) == 128 * q + 128 * p;
    }
  }

  /** Decoding a signed encoding gives back the integer. */
  lemma RoundTripS(v: int)
    ensures Leb128(EncodeS(v), true) == v
  {
    GroupsEncodeS(v);
    SignEncodeS(v);
  }

  /** The value a token carries. Floats keep their raw little-endian bytes:
      the model does not interpret floating point. */
  datatype TokenValue =
    | ByteValue(b: byte)
    | StringValue(s: seq<byte>)
    | FloatBits(bits: seq<byte>)
    | IntValue(i: int)

  /** `ord($raw)`: the first byte, 0 for the empty string. */
  function Ord(raw: seq<byte>): byte {
    if raw == [] then 0 else raw[0]
  }

  /** Token::decode: the interpretation of the raw bytes chosen by the type
      code; an unknown type code is an UnexpectedValueException. */
  function Decode(tokenType: int, raw: seq<byte>): (r: Result<TokenValue>)
    ensures r.Err? <==> tokenType !in {BYTE_TYPE, STRING_TYPE, FLOAT_TYPE, FLOAT_64_TYPE,
                                       INT_TYPE, INT_64_TYPE, UINT_TYPE, UINT_64_TYPE}
    ensures r.Ok? && tokenType in {INT_TYPE, INT_64_TYPE} ==> r.value == IntValue(Leb128(raw, true))
    ensures r.Ok? && tokenType in {UINT_TYPE, UINT_64_TYPE} ==> r.value == IntValue(Leb128(raw, false)) && r.value.i >= 0
    ensures r.Ok? && tokenType == BYTE_TYPE && |raw| == 1 ==> r.value == ByteValue(raw[0])
  {
    if tokenType == BYTE_TYPE then Ok(ByteValue(Ord(raw)))
    else if tokenType == STRING_TYPE then Ok(StringValue(raw))
    else if tokenType == FLOAT_TYPE || tokenType == FLOAT_64_TYPE then Ok(FloatBits(raw))
    else if tokenType == INT_TYPE || tokenType == INT_64_TYPE then Ok(IntValue(Leb128(raw, true)))
    else if tokenType == UINT_TYPE || tokenType == UINT_64_TYPE then Ok(IntValue(Leb128(raw, false)))
    else Err(UnexpectedValueException(""))
  }

  /** Token::decodeLeb128 with the loop over the bytes, front to back. */
  method DecodeLeb128(raw: seq<byte>, signed: bool) returns (x: int)
    ensures x == Leb128(raw, signed)
  {
    var len := 0;
    x := 0;
    var rest := raw;
    while rest != []
      invariant 0 <= len <= |raw|
      invariant rest == raw[len..]
      invariant x == Groups(raw[..len])
    {
      var ch := rest[0];
      rest := rest[1..];
      assert raw[..len + 1] == raw[..len] + [ch];
      GroupsSnoc(raw[..len], ch);
      x := x + (ch % 128) * Pow2(7 * len);
      len := len + 1;
    }
    assert raw[..len] == raw;
    if signed && |raw| > 0 {
      var last := raw[|raw| - 1];
      if SignBit(last) {
        x := x - Pow2(7 * len);
      }
    }
  }
}

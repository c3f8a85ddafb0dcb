/** The binary parser as the object the builders share
    (src/Compiler/BinaryParser.php): a stream whose position and end-of-file
    flag every `expect*` method advances. Each method is proved to do what
    the decoder of the same name in module Stream computes. */
module Parser {
  import opened Exceptions
  import opened Token
  import opened Stream

  /** A parser method agrees with a pure decoder: on success it returns the
      decoded value and leaves the stream where the decoder left it; on
      failure it raises the same exception. */
  ghost predicate Agrees<T>(r: Result<T>, spec: Result<Parsed<T>>, now: Cursor) {
    match spec
    case Ok(p) => r == Ok(p.v) && now == p.next
    case Err(e) => r == Err(e)
  }

  class BinaryParser {
    /** the bytes of the stream */
    const data: seq<byte>
    var pos: nat
    var eof: bool

    /** The stream as a value. */
    function At(): Cursor
      reads this
    {
      Cursor(data, pos, eof)
    }

    /** A parser over a stream, rewound as `scan` does. */
    constructor(stream: seq<byte>)
      ensures At() == Cursor(stream, 0, false)
    {
      data := stream;
      pos := 0;
      eof := false;
    }

    /** `fread($this->stream, $n)` */
    method Read(n: nat) returns (bytes: seq<byte>)
      modifies this
      ensures Parsed(bytes, At()) == ReadN(old(At()), n)
    {
      var rem := if pos < |data| then |data| - pos else 0;
      var got := if n <= rem then n else rem;
      bytes := if got == 0 then [] else data[pos..pos + got];
      eof := eof || n > rem;
      pos := pos + got;
    }

    /** `fseek($this->stream, $offset)` */
    method Seek(offset: nat)
      modifies this
      ensures At() == SeekSet(old(At()), offset)
    {
      pos := offset;
      eof := false;
    }

    /** `fseek($this->stream, $n, SEEK_CUR)` */
    method Skip(n: nat)
      modifies this
      ensures At() == SeekCur(old(At()), n)
    {
      pos := pos + n;
      eof := false;
    }

    /** Moves the stream to where a decoder left it. */
    method Commit(c: Cursor)
      requires c.data == data
      modifies this
      ensures At() == c
    {
      pos := c.pos;
      eof := c.eof;
    }

    /** BinaryParser::position, which never fails on a seekable stream. */
    method Position() returns (p: nat)
      ensures p == At().pos
    {
      p := pos;
    }

    /** BinaryParser::eof */
    method Eof() returns (b: bool)
      ensures b == At().eof
    {
      b := eof;
    }

    /** BinaryParser::scanHeader */
    method ScanHeader() returns (r: Result<()>)
      modifies this
      ensures Stream.ScanHeader(old(At())).Ok? ==> r == Ok(()) && At() == Stream.ScanHeader(old(At())).value
      ensures Stream.ScanHeader(old(At())).Err? ==> r == Err(Stream.ScanHeader(old(At())).error)
    {
      var magic := Read(4);
      if magic != MAGIC {
        return Err(InvalidArgumentException("Provided stream does not represent a valid binary webassembly source"));
      }
      var version := Read(4);
      if UnpackV(version) != Some(1) {
        return Err(InvalidArgumentException("Only version 1 binary webassembly is supported"));
      }
      r := Ok(());
    }

    /** BinaryParser::expectByte */
    method ExpectByte(minIncl: byte, maxIncl: byte) returns (r: Result<byte>)
      modifies this
      ensures Agrees(r, Stream.ExpectByte(old(At()), minIncl, maxIncl), At())
    {
      var value := Read(1);
      var b := Ord(value);
      if minIncl != 0 && b < minIncl {
        return Err(RuntimeException("Invalid value"));
      }
      if (maxIncl != 0 && b > maxIncl) || (minIncl != 0 && b != minIncl) {
        return Err(RuntimeException("Invalid value"));
      }
      r := Ok(b);
    }

    /** BinaryParser::expectByte with no bounds: a bound of 0 is no bound,
        so the call reads one byte and never fails. */
    method ExpectAnyByte() returns (b: byte)
      modifies this
      ensures Stream.ExpectByte(old(At()), 0, 0) == Ok(Parsed(b, At()))
    {
      var value := Read(1);
      b := Ord(value);
    }

    /** BinaryParser::expectInt, reading at most the corrected number of
        bytes, ceil(bits / 7): the lexing loop stops after the first byte
        whose high bit is clear. */
    method ExpectInt(unsigned: bool, bits: nat) returns (r: Result<int>)
      modifies this
      ensures Agrees(r, Stream.ExpectInt(old(At()), unsigned, bits), At())
    {
      var c0 := At();
      var width := Width(bits);
      var value: seq<byte> := [];
      var i := 0;
      var done := false;
      assert [] + Lex(c0, width).v == Lex(c0, width).v;
      while i < width && !done
        invariant 0 <= i <= width
        invariant data == c0.data
        invariant !done ==> Lex(c0, width) == Parsed(value + Lex(At(), width - i).v, Lex(At(), width - i).next)
        invariant done ==> Lex(c0, width) == Parsed(value, At())
        decreases width - i, if done then 0 else 1
      {
        ghost var before := At();
        var ch := Read(1);
        if Ord(ch) < 128 {
          done := true;
        } else {
          var rest := Lex(At(), width - i - 1);
          assert Lex(before, width - i) == Parsed(ch + rest.v, rest.next);
          assert value + (ch + rest.v) == (value + ch) + rest.v;
        }
        value := value + ch;
        i := i + 1;
      }
      if !done {
        assert Lex(At(), 0) == Parsed([], At());
        assert value + [] == value;
      }
      if LastOrd(value) >= 128 {
        return Err(RuntimeException("Invalid integer provided"));
      }
      var x := DecodeLeb128(value, !unsigned);
      assert Decode(if unsigned then UINT_TYPE else INT_TYPE, value) == Ok(IntValue(x));
      r := Ok(x);
    }

    /** BinaryParser::expectString with the default pattern, which every
        string matches. */
    method ExpectString() returns (r: Result<seq<byte>>)
      modifies this
      ensures Agrees(r, Stream.ExpectString(old(At())), At())
    {
      var size := ExpectInt(true, 32);
      if size.Err? {
        return Err(size.error);
      }
      if size.value == 0 {
        return Ok([]);
      }
      var value := Read(size.value as nat);
      if !Utf8(value) {
        return Err(UnexpectedValueException("Invalid utf8 string"));
      }
      r := Ok(value);
    }

    /** BinaryParser::expectFloat: the raw bytes of the float. */
    method ExpectFloat(bits: nat) returns (raw: seq<byte>)
      modifies this
      ensures Parsed(raw, At()) == Stream.ExpectFloat(old(At()), bits)
    {
      raw := Read(bits / 8);
    }

    /** BinaryParser::expectVector: a u32 count, then the element decoder
        once for each index 0 .. count-1, in order. */
    method ExpectVector<X, T>(x: X, elem: ElemFn<X, T>) returns (r: Result<seq<T>>)
      requires ReadsForward(x, elem)
      modifies this
      ensures Agrees(r, Vector(x, old(At()), elem), At())
    {
      ghost var c0 := At();
      var size := ExpectInt(true, 32);
      if size.Err? {
        return Err(size.error);
      }
      var n := size.value as nat;
      var children: seq<T> := [];
      var i := 0;
      while i < n
        invariant 0 <= i <= n && |children| == i
        invariant At().data == data
        invariant Vector(x, c0, elem) == VectorFrom(x, At(), elem, i, n, children)
      {
        var e := elem(x, At(), i);
        if e.Err? {
          return Err(e.error);
        }
        assert Advanced(At(), e.value.next);
        Commit(e.value.next);
        children := children + [e.value.v];
        i := i + 1;
      }
      r := Ok(children);
    }

    /** The first half of BinaryParser::assertSize: the declared size and
        the position where the body starts. */
    method SizeHeader() returns (r: Result<(nat, nat)>)
      modifies this
      ensures Stream.ExpectInt(old(At()), true, 32).Ok? ==> (
        var size := Stream.ExpectInt(old(At()), true, 32).value;
        r == Ok((size.v as nat, size.next.pos)) && At() == size.next)
      ensures Stream.ExpectInt(old(At()), true, 32).Err? ==> r == Err(Stream.ExpectInt(old(At()), true, 32).error)
    {
      var size := ExpectInt(true, 32);
      if size.Err? {
        return Err(size.error);
      }
      r := Ok((size.value as nat, pos));
    }

    /** The second half of BinaryParser::assertSize: the body must have
        taken exactly the declared size, unless that is 0. */
    method CheckSize(size: nat, start: nat) returns (r: Result<()>)
      ensures r.Ok? <==> (size == 0 || At().pos - start == size)
      ensures r.Err? ==> r.error == UnexpectedValueException(SizeMismatch(size, At().pos - start))
    {
      var contents := pos - start;
      if size != 0 && size != contents {
        return Err(UnexpectedValueException(SizeMismatch(size, contents)));
      }
      r := Ok(());
    }
  }
}

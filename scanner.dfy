/** The section loop of BinaryParser::scan (src/Compiler/BinaryParser.php):
    after the header, read a section id and a size-checked body, hand the
    body to the first builder that supports the id, and skip it by its
    declared size when none does. A section of size 0 ends the loop, which
    is also what the end of the stream looks like: there the id and the
    size both read as 0. */
module Scanner {
  import opened Exceptions
  import opened Token
  import opened Stream
  import opened NodeType
  import opened Ast
  import opened Parser
  import opened Compiler
  import TypesBuilder
  import ImportsBuilder
  import ExportsBuilder
  import ElemsBuilder
  import FuncsBuilder

  /** What the section builders of the model write: the module's types,
      imports, functions, exports and element segments, and the function
      builder's pending type indices. */
  datatype Decoded = Decoded(types: seq<FuncType>, imports: seq<Import>, funcTypes: Option<seq<nat>>,
                             funcs: seq<Func>, exports: seq<Export>, elems: seq<Element>)

  /** The builders of the table, memory, global, start and data sections,
      which are not part of this model: given the section id and the stream
      at the start of the body, the number of bytes they read, or their
      error. */
  type OtherFn = (byte, Cursor) -> Result<nat>

  /** The ids those builders support. */
  predicate OtherSection(id: int) {
    id == 4 || id == 5 || id == 6 || id == 8 || id == 11
  }

  // ---------------------------------------------------------------------
  // the vectors the supported sections hold; each keeps the bytes as they are

  function TypesVector(c: Cursor): (r: Result<Parsed<seq<FuncType>>>)
    ensures r == Vector((), c, TypesBuilder.FuncTypeElem)
    ensures r.Ok? ==> r.value.next.data == c.data
  {
    TypesBuilder.FuncTypeReadsForward();
    VectorAdvances((), c, TypesBuilder.FuncTypeElem);
    Vector((), c, TypesBuilder.FuncTypeElem)
  }

  function ImportsVector(c: Cursor): (r: Result<Parsed<seq<Import>>>)
    ensures r == Vector((), c, ImportsBuilder.ImportOf)
    ensures r.Ok? ==> r.value.next.data == c.data
  {
    ImportsBuilder.ImportReadsForward();
    VectorAdvances((), c, ImportsBuilder.ImportOf);
    Vector((), c, ImportsBuilder.ImportOf)
  }

  function TypeIdxVector(c: Cursor): (r: Result<Parsed<seq<nat>>>)
    ensures r == Vector((), c, FuncsBuilder.TypeIdxElem)
    ensures r.Ok? ==> r.value.next.data == c.data
  {
    FuncsBuilder.TypeIdxReadsForward();
    VectorAdvances((), c, FuncsBuilder.TypeIdxElem);
    Vector((), c, FuncsBuilder.TypeIdxElem)
  }

  function CodeVector(types: seq<nat>, c: Cursor): (r: Result<Parsed<seq<Func>>>)
    ensures r == Vector(types, c, FuncsBuilder.CodeElem)
    ensures r.Ok? ==> r.value.next.data == c.data
  {
    FuncsBuilder.CodeReadsForward(types);
    VectorAdvances(types, c, FuncsBuilder.CodeElem);
    Vector(types, c, FuncsBuilder.CodeElem)
  }

  function ExportsVector(c: Cursor): (r: Result<Parsed<seq<Export>>>)
    ensures r == Vector((), c, ExportsBuilder.ExportOf)
    ensures r.Ok? ==> r.value.next.data == c.data
  {
    ExportsBuilder.ExportReadsForward();
    VectorAdvances((), c, ExportsBuilder.ExportOf);
    Vector((), c, ExportsBuilder.ExportOf)
  }

  function ElemsVector(c: Cursor): (r: Result<Parsed<seq<Element>>>)
    ensures r == Vector((), c, ElemsBuilder.ElemOf)
    ensures r.Ok? ==> r.value.next.data == c.data
  {
    ElemsBuilder.ElemReadsForward();
    VectorAdvances((), c, ElemsBuilder.ElemOf);
    Vector((), c, ElemsBuilder.ElemOf)
  }

  /** The body of a section of non-zero size, given to the builder list in
      order (types, imports, functions, tables, memories, globals, exports,
      start, data, elements). Every builder that declines seeks back to
      the start; with none, the body is skipped by its size. */
  function Dispatch(id: byte, c: Cursor, size: nat, d: Decoded, other: OtherFn): (r: Result<Parsed<Decoded>>)
    ensures r.Ok? ==> r.value.next.data == c.data
  {
    var c1 := if id == 1 then c else SeekSet(c, c.pos);
    if id == 1 then
      match TypesVector(c1)
      case Err(e) => Err(e)
      case Ok(p) => Ok(Parsed(d.(types := p.v), p.next))
    else if id == 2 then
      match ImportsVector(c1)
      case Err(e) => Err(e)
      case Ok(p) => Ok(Parsed(d.(imports := p.v), p.next))
    else if id == 3 || id == 10 then
      if d.funcTypes.None? then
        match TypeIdxVector(c1)
        case Err(e) => Err(e)
        case Ok(p) => Ok(Parsed(d.(funcTypes := Some(p.v)), p.next))
      else
        match CodeVector(d.funcTypes.value, c1)
        case Err(e) => Err(e)
        case Ok(p) => Ok(Parsed(d.(funcs := p.v), p.next))
    else if OtherSection(id) then
      match other(id, c1)
      case Err(e) => Err(e)
      case Ok(n) => Ok(Parsed(d, Ahead(c1, n)))
    else if id == 7 then
      match ExportsVector(c1)
      case Err(e) => Err(e)
      case Ok(p) => Ok(Parsed(d.(exports := p.v), p.next))
    else if id == 9 then
      match ElemsVector(c1)
      case Err(e) => Err(e)
      case Ok(p) => Ok(Parsed(d.(elems := p.v), p.next))
    else
      Ok(Parsed(d, SeekCur(c1, size)))
  }

  /** The closure given to assertSize: None (break) for a size of 0,
      otherwise the dispatched body. */
  function SectionBody(x: (byte, Decoded, OtherFn), c: Cursor, start: nat, size: nat): (r: Result<Parsed<Option<Decoded>>>)
    ensures r.Ok? ==> r.value.next.data == c.data
    ensures r.Ok? ==> (r.value.v.None? <==> size == 0)
  {
    if size == 0 then Ok(Parsed(None, c))
    else
      match Dispatch(x.0, c, size, x.1, x.2)
      case Err(e) => Err(e)
      case Ok(p) => Ok(Parsed(Some(p.v), p.next))
  }

  /** One pass of the loop: the section id, then the size-checked body. */
  function Step(c: Cursor, d: Decoded, other: OtherFn): (r: Result<Parsed<Option<Decoded>>>)
  {
    match ExpectByte(c, 0, 0)
    case Err(e) => Err(e)
    case Ok(id) => AssertSize((id.v, d, other), id.next, SectionBody)
  }

  /** A pass that does not end the loop moves the stream forward: the id
      was a byte before the end, and the body took its non-zero size. */
  lemma StepProgress(c: Cursor, d: Decoded, other: OtherFn)
    requires Step(c, d, other).Ok? && Step(c, d, other).value.v.Some?
    ensures Step(c, d, other).value.next.data == c.data
    ensures Rank(Step(c, d, other).value.next) < Rank(c)
  {
    ExpectByteZeroAcceptsAll(c);
    var id := ExpectByte(c, 0, 0).value;
    ReadNAdvances(c, 1);
    ExpectIntDecodes(id.next, true, Width(32));
    var size := Stream.ExpectInt(id.next, true, 32).value;
    if Remaining(c) == 0 {
      ExpectIntAtEnd(id.next, true, Width(32));
      assert false;
    }
    AssertSizeChecks((id.v, d, other), id.next, SectionBody);
  }

  /** The loop: passes until one ends it or fails. */
  function ScanFrom(c: Cursor, d: Decoded, other: OtherFn): (r: Result<Decoded>)
    decreases Rank(c)
  {
    match Step(c, d, other)
    case Err(e) => Err(e)
    case Ok(p) =>
      match p.v
      case None => Ok(d)
      case Some(d2) =>
        StepProgress(c, d, other);
        ScanFrom(p.next, d2, other)
  }

  /** BinaryParser::scan: rewind, check the header, then run the loop from
      an empty module. The function builder keeps its type indices across
      calls. */
  function ScanModule(data: seq<byte>, funcTypes: Option<seq<nat>>, other: OtherFn): (r: Result<Decoded>)
  {
    match Stream.ScanHeader(SeekSet(Cursor(data, 0, false), 0))
    case Err(e) => Err(e)
    case Ok(c) => ScanFrom(c, Decoded([], [], funcTypes, [], [], []), other)
  }

  /** A section of size 0 ends the loop with the module as it is. */
  lemma EmptySectionEnds(c: Cursor, d: Decoded, other: OtherFn, id: byte)
    requires HoldsAt(c, [id, 0])
    ensures ScanFrom(c, d, other) == Ok(d)
  {
    HoldsAtSplit(c, [id], [0]);
    ReadHeld(c, id);
    assert U32Encoding([0], 0) by {
      assert [0 as byte][1..] == [];
    }
    ExpectU32Held(Ahead(c, 1), [0], 0);
  }

  /** At the end of the stream the loop stops without error. */
  lemma EndOfStreamEnds(c: Cursor, d: Decoded, other: OtherFn)
    requires Remaining(c) == 0
    ensures ScanFrom(c, d, other) == Ok(d)
  {
    ExpectByteZeroAcceptsAll(c);
    var id := ExpectByte(c, 0, 0).value;
    ExpectIntAtEnd(id.next, true, Width(32));
  }

  /** A section no builder supports is skipped by its declared size, with
      the module unchanged, and the loop carries on after it. */
  lemma UnknownSectionSkipped(c: Cursor, d: Decoded, other: OtherFn, id: byte, count: seq<byte>, size: nat)
    requires id == 0 || id >= 12
    requires HoldsAt(c, [id]) && U32Encoding(count, size) && HoldsAt(Ahead(c, 1), count) && size != 0
    ensures Step(c, d, other) == Ok(Parsed(Some(d), Cursor(c.data, c.pos + 1 + |count| + size, false)))
  {
    var c1 := Ahead(c, 1);
    ExpectByteHeld(c, id, 0, 0);
    ExpectU32Held(c1, count, size);
    StepSized(c, d, other);
    UnknownBodySkipped(Ahead(c1, |count|), d, other, id, size);
  }

  /** The body of such a section is skipped by its size, which the size
      check then accepts. */
  lemma UnknownBodySkipped(c: Cursor, d: Decoded, other: OtherFn, id: byte, size: nat)
    requires id == 0 || id >= 12
    requires size != 0
    ensures SizedBody(id, c, size, d, other) == Ok(Parsed(Some(d), Cursor(c.data, c.pos + size, false)))
  {
    assert Dispatch(id, c, size, d, other) == Ok(Parsed(d, Cursor(c.data, c.pos + size, false)));
  }

  // ---------------------------------------------------------------------
  // the loop on the parser

  /** The fields the model's builders write, read off the objects. */
  function Contents(compiler: ModuleCompiler, funcs: FuncsBuilder.Builder): Decoded
    reads compiler, funcs
  {
    Decoded(compiler.types, compiler.imports, funcs.funcTypes, compiler.funcs, compiler.exports, compiler.elems)
  }

  /** The body of a section of non-zero size on the parser: the builder
      that supports the id scans it. */
  method Section(parser: BinaryParser, compiler: ModuleCompiler, funcs: FuncsBuilder.Builder, other: OtherFn,
                 id: byte, size: nat) returns (r: Result<()>)
    modifies parser, compiler, funcs
    ensures var spec := Dispatch(id, old(parser.At()), size, old(Contents(compiler, funcs)), other);
      (spec.Ok? ==> r == Ok(()) && parser.At() == spec.value.next && Contents(compiler, funcs) == spec.value.v)
      && (spec.Err? ==> r == Err(spec.error))
  {
    if id != 1 {
      var start := parser.Position();
      parser.Seek(start);
    }
    if id == 1 {
      r := TypesBuilder.Scan(parser, compiler);
    } else if id == 2 {
      r := ImportsBuilder.Scan(parser, compiler);
    } else if id == 3 || id == 10 {
      r := funcs.Scan(parser, compiler);
    } else if OtherSection(id) {
      var n := other(id, parser.At());
      if n.Err? {
        return Err(n.error);
      }
      parser.Commit(Ahead(parser.At(), n.value));
      r := Ok(());
    } else if id == 7 {
      r := ExportsBuilder.Scan(parser, compiler);
    } else if id == 9 {
      r := ElemsBuilder.Scan(parser, compiler);
    } else {
      parser.Skip(size);
      r := Ok(());
    }
  }

  /** A section of non-zero size, and assertSize's check that its body
      read exactly the declared number of bytes. */
  function SizedBody(id: byte, c: Cursor, size: nat, d: Decoded, other: OtherFn): (r: Result<Parsed<Option<Decoded>>>)
  {
    SizeChecked(SectionBody((id, d, other), c, c.pos, size), c.pos, size)
  }

  /** Once the id and the size are read, a pass is the sized body. */
  lemma StepSized(c: Cursor, d: Decoded, other: OtherFn)
    ensures var id := ExpectByte(c, 0, 0);
      id.Ok? && Stream.ExpectInt(id.value.next, true, 32).Ok? ==>
        var size := Stream.ExpectInt(id.value.next, true, 32).value;
        Step(c, d, other) == SizedBody(id.value.v, size.next, size.v as nat, d, other)
  {
  }

  /** The body of a section of non-zero size on the parser, then the size
      check. */
  method SizedSection(parser: BinaryParser, compiler: ModuleCompiler, funcs: FuncsBuilder.Builder, other: OtherFn,
                      id: byte, size: nat, start: nat) returns (r: Result<()>)
    requires size != 0 && start == parser.At().pos
    modifies parser, compiler, funcs
    ensures var spec := SizedBody(id, old(parser.At()), size, old(Contents(compiler, funcs)), other);
      (spec.Ok? ==> r == Ok(()) && spec.value.v.Some? && parser.At() == spec.value.next
                    && Contents(compiler, funcs) == spec.value.v.value)
      && (spec.Err? ==> r == Err(spec.error))
  {
    var body := Section(parser, compiler, funcs, other, id, size);
    if body.Err? {
      return Err(body.error);
    }
    var check := parser.CheckSize(size, start);
    if check.Err? {
      return Err(check.error);
    }
    r := Ok(());
  }

  /** One pass of the loop on the parser: Ok(true) when a section was
      read and the loop goes on, Ok(false) when a size of 0 breaks it. */
  method Pass(parser: BinaryParser, compiler: ModuleCompiler, funcs: FuncsBuilder.Builder, other: OtherFn)
    returns (r: Result<bool>)
    modifies parser, compiler, funcs
    ensures var spec := Step(old(parser.At()), old(Contents(compiler, funcs)), other);
      (spec.Ok? && spec.value.v.Some? ==>
         r == Ok(true) && parser.At() == spec.value.next && Contents(compiler, funcs) == spec.value.v.value)
      && (spec.Ok? && spec.value.v.None? ==> r == Ok(false) && Contents(compiler, funcs) == old(Contents(compiler, funcs)))
      && (spec.Err? ==> r == Err(spec.error))
  {
    ghost var c := parser.At();
    ghost var d := Contents(compiler, funcs);
    ExpectByteZeroAcceptsAll(c);
    var id := parser.ExpectAnyByte();
    ghost var next := parser.At();
    var sized := parser.SizeHeader();
    if sized.Err? {
      assert Step(c, d, other) == Err(sized.error);
      return Err(sized.error);
    }
    var (size, start) := sized.value;
    ghost var header := Stream.ExpectInt(next, true, 32).value;
    assert header.next.pos == start;
    if size == 0 {
      assert Step(c, d, other) == Ok(Parsed(None, header.next));
      return Ok(false);
    }
    StepSized(c, d, other);
    var body := SizedSection(parser, compiler, funcs, other, id, size, start);
    if body.Err? {
      return Err(body.error);
    }
    r := Ok(true);
  }

  /** BinaryParser::scan on a parser over the module's bytes, with the
      builders as they are. */
  method Scan(parser: BinaryParser, funcs: FuncsBuilder.Builder, other: OtherFn) returns (r: Result<ModuleCompiler>)
    modifies parser, funcs
    ensures var spec := ScanModule(parser.data, old(funcs.funcTypes), other);
      (r.Ok? <==> spec.Ok?) && (spec.Err? ==> r == Err(spec.error))
      && (r.Ok? ==> fresh(r.value) && Contents(r.value, funcs) == spec.value)
  {
    parser.Seek(0);
    var header := parser.ScanHeader();
    if header.Err? {
      return Err(header.error);
    }
    var compiler := new ModuleCompiler();
    while true
      invariant fresh(compiler)
      invariant ScanFrom(parser.At(), Contents(compiler, funcs), other)
                == ScanModule(parser.data, old(funcs.funcTypes), other)
      decreases Rank(parser.At())
    {
      ghost var c := parser.At();
      ghost var d := Contents(compiler, funcs);
      var more := Pass(parser, compiler, funcs, other);
      if more.Err? {
        return Err(more.error);
      }
      if !more.value {
        break;
      }
      StepProgress(c, d, other);
    }
    r := Ok(compiler);
  }
}

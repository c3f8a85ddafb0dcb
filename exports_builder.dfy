/** The export section (src/Compiler/Binary/ExportsBuilder.php): a vector
    of exports, each a name, a kind byte and an index. */
module ExportsBuilder {
  import opened Exceptions
  import opened Token
  import opened Stream
  import opened Ast
  import opened Parser
  import opened Compiler

  /** The export section has id 7. */
  predicate Supported(sectionId: int) {
    sectionId == 7
  }

  /** The kind byte each export kind is written with. */
  function KindCode(kind: ExportKind): byte {
    match kind
    case FuncExport => 0
    case TableExport => 1
    case MemExport => 2
    case GlobalExport => 3
  }

  /** The switch over the kind byte. */
  function KindOf(code: byte): (r: Result<ExportKind>)
    ensures r.Ok? <==> code <= 3
    ensures r.Ok? ==> KindCode(r.value) == code
    ensures r.Err? ==> r.error == ParsingException("Invalid export type")
  {
    if code == 0 then Ok(FuncExport)
    else if code == 1 then Ok(TableExport)
    else if code == 2 then Ok(MemExport)
    else if code == 3 then Ok(GlobalExport)
    else Err(ParsingException("Invalid export type"))
  }

  /** The element function of the export vector. The index is read for
      every kind before the kind is looked at. */
  function ExportOf(x: (), c: Cursor, i: nat): (r: Result<Parsed<Export>>)
    ensures r.Ok? ==> Utf8(r.value.v.name)
    ensures r.Err? ==> r.error.RuntimeException? || r.error.UnexpectedValueException?
  {
    var name :- Stream.ExpectString(c);
    var code :- Stream.ExpectByte(name.next, 0, 3);
    var index :- Stream.ExpectInt(code.next, true, 32);
    ExpectByteBounded(name.next, 3);
    match KindOf(code.v)
    case Err(e) => Err(e)
    case Ok(kind) => Ok(Parsed(Export(kind, name.v, index.v), index.next))
  }

  lemma ExportAdvances(c: Cursor)
    ensures ExportOf((), c, 0).Ok? ==> Advanced(c, ExportOf((), c, 0).value.next)
  {
    var name := Stream.ExpectString(c);
    if name.Ok? {
      ExpectStringReads(c);
      var c1 := name.value.next;
      var code := Stream.ExpectByte(c1, 0, 3);
      if code.Ok? {
        ExpectByteAdvances(c1, 0, 3);
        var c2 := code.value.next;
        ExpectIntDecodes(c2, true, Width(32));
        var index := Stream.ExpectInt(c2, true, 32);
        if index.Ok? {
          AdvancedTrans(c, c1, c2);
          AdvancedTrans(c, c2, index.value.next);
        }
      }
    }
  }

  lemma ExportReadsForward()
    ensures ReadsForward((), ExportOf)
  {
    forall c: Cursor, i: nat
      ensures ExportOf((), c, i).Ok? ==> Advanced(c, ExportOf((), c, i).value.next)
    {
      ExportAdvances(c);
      assert ExportOf((), c, i) == ExportOf((), c, 0);
    }
  }

  /** The export is its name, its kind and its index, each as the stream
      yields it. */
  lemma ExportParts(c: Cursor, e: Export, c1: Cursor, c2: Cursor, c3: Cursor)
    requires Stream.ExpectString(c) == Ok(Parsed(e.name, c1))
    requires Stream.ExpectByte(c1, 0, 3) == Ok(Parsed(KindCode(e.kind), c2))
    requires Stream.ExpectInt(c2, true, 32) == Ok(Parsed(e.index as int, c3))
    ensures ExportOf((), c, 0) == Ok(Parsed(e, c3))
  {
  }

  /** An export is read back from its encoding: the name with its length
      first, the kind byte and the index. */
  lemma ExportRoundTrip(c: Cursor, e: Export, len: seq<byte>, idx: seq<byte>)
    requires U32Encoding(len, |e.name|) && HoldsAt(c, len) && HoldsAt(Ahead(c, |len|), e.name) && Utf8(e.name)
    requires HoldsAt(Ahead(Ahead(c, |len|), |e.name|), [KindCode(e.kind)])
    requires U32Encoding(idx, e.index) && HoldsAt(Ahead(Ahead(Ahead(c, |len|), |e.name|), 1), idx)
    ensures ExportOf((), c, 0) == Ok(Parsed(e, Ahead(Ahead(Ahead(Ahead(c, |len|), |e.name|), 1), |idx|)))
  {
    var c1 := Ahead(Ahead(c, |len|), |e.name|);
    var c2 := Ahead(c1, 1);
    ExpectStringHeld(c, len, e.name);
    ExpectByteHeld(c1, KindCode(e.kind), 0, 3);
    ExpectU32Held(c2, idx, e.index);
    ExportParts(c, e, c1, c2, Ahead(c2, |idx|));
  }

  /** ExportsBuilder::scan: the section's vector becomes the module's
      exports. An error leaves them as they were. */
  method Scan(parser: BinaryParser, compiler: ModuleCompiler) returns (r: Result<()>)
    modifies parser, compiler
    ensures var spec := Vector((), old(parser.At()), ExportOf);
      (spec.Ok? ==> r == Ok(()) && compiler.exports == spec.value.v && parser.At() == spec.value.next)
      && (spec.Err? ==> r == Err(spec.error) && compiler.exports == old(compiler.exports))
    ensures compiler.types == old(compiler.types) && compiler.funcs == old(compiler.funcs)
    ensures compiler.imports == old(compiler.imports) && compiler.elems == old(compiler.elems)
    ensures compiler.start == old(compiler.start)
  {
    ExportReadsForward();
    var exports := parser.ExpectVector((), ExportOf);
    if exports.Err? {
      return Err(exports.error);
    }
    compiler.exports := exports.value;
    r := Ok(());
  }
}

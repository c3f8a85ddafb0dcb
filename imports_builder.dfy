/** The import section (src/Compiler/Binary/ImportsBuilder.php): a vector
    of imports, each a module name, a field name, a kind byte and the
    description that kind calls for. */
module ImportsBuilder {
  import opened Exceptions
  import opened Token
  import opened Stream
  import opened NodeType
  import opened Ast
  import opened Parser
  import opened Compiler
  import TypesBuilder

  /** The import section has id 2. */
  predicate Supported(sectionId: int) {
    sectionId == 2
  }

  /** The kind byte each import description is written with. */
  function KindCode(desc: ImportDesc): byte {
    match desc
    case FuncImport(_) => 0
    case TableImport(_) => 1
    case MemImport(_) => 2
    case GlobalImport(_) => 3
  }

  /** The description after the kind byte: a type index for a function,
      otherwise the table, memory or global type. */
  function DescOf(kind: byte, c: Cursor): (r: Result<Parsed<ImportDesc>>)
    ensures r.Ok? ==> KindCode(r.value.v) == kind
    ensures kind > 3 ==> r == Err(ParsingException("Invalid import type"))
    ensures kind <= 3 && r.Err? ==> r.error.RuntimeException?
  {
    if kind == 0 then
      var typeIdx :- Stream.ExpectInt(c, true, 32);
      Ok(Parsed(FuncImport(typeIdx.v), typeIdx.next))
    else if kind == 1 then
      var t :- TypesBuilder.TableTypeOf(c);
      Ok(Parsed(TableImport(t.v), t.next))
    else if kind == 2 then
      var t :- TypesBuilder.MemTypeOf(c);
      Ok(Parsed(MemImport(t.v), t.next))
    else if kind == 3 then
      var t :- TypesBuilder.GlobalTypeOf(c);
      Ok(Parsed(GlobalImport(t.v), t.next))
    else
      Err(ParsingException("Invalid import type"))
  }

  /** The element function of the import vector. The kind byte is checked
      to be at most 3 before the description is read, so the switch's
      default case is never reached. */
  function ImportOf(x: (), c: Cursor, i: nat): (r: Result<Parsed<Import>>)
    ensures r.Ok? ==> Utf8(r.value.v.moduleName) && Utf8(r.value.v.name)
    ensures r.Err? ==> r.error.RuntimeException? || r.error.UnexpectedValueException?
  {
    var moduleName :- Stream.ExpectString(c);
    var name :- Stream.ExpectString(moduleName.next);
    var kind :- Stream.ExpectByte(name.next, 0, 3);
    ExpectByteBounded(name.next, 3);
    var desc :- DescOf(kind.v, kind.next);
    Ok(Parsed(Import(moduleName.v, name.v, desc.v), desc.next))
  }

  lemma DescAdvances(kind: byte, c: Cursor)
    ensures DescOf(kind, c).Ok? ==> Advanced(c, DescOf(kind, c).value.next)
  {
    ExpectIntDecodes(c, true, Width(32));
    TypesBuilder.TableTypeAdvances(c);
    TypesBuilder.LimitsAdvances(c);
    TypesBuilder.GlobalTypeAdvances(c);
  }

  lemma ImportAdvances(c: Cursor)
    ensures ImportOf((), c, 0).Ok? ==> Advanced(c, ImportOf((), c, 0).value.next)
  {
    var moduleName := Stream.ExpectString(c);
    if moduleName.Ok? {
      ExpectStringReads(c);
      var c1 := moduleName.value.next;
      var name := Stream.ExpectString(c1);
      if name.Ok? {
        ExpectStringReads(c1);
        var c2 := name.value.next;
        var kind := Stream.ExpectByte(c2, 0, 3);
        if kind.Ok? {
          ExpectByteAdvances(c2, 0, 3);
          DescAdvances(kind.value.v, kind.value.next);
          if DescOf(kind.value.v, kind.value.next).Ok? {
            AdvancedTrans(c, c1, c2);
            AdvancedTrans(c, c2, kind.value.next);
            AdvancedTrans(c, kind.value.next, DescOf(kind.value.v, kind.value.next).value.next);
          }
        }
      }
    }
  }

  lemma ImportReadsForward()
    ensures ReadsForward((), ImportOf)
  {
    forall c: Cursor, i: nat
      ensures ImportOf((), c, i).Ok? ==> Advanced(c, ImportOf((), c, i).value.next)
    {
      ImportAdvances(c);
      assert ImportOf((), c, i) == ImportOf((), c, 0);
    }
  }

  /** The import is its two names, its kind and its description, each as
      the stream yields it. */
  lemma ImportParts(c: Cursor, imp: Import, c1: Cursor, c2: Cursor, c3: Cursor, c4: Cursor)
    requires Stream.ExpectString(c) == Ok(Parsed(imp.moduleName, c1))
    requires Stream.ExpectString(c1) == Ok(Parsed(imp.name, c2))
    requires Stream.ExpectByte(c2, 0, 3) == Ok(Parsed(KindCode(imp.desc), c3))
    requires DescOf(KindCode(imp.desc), c3) == Ok(Parsed(imp.desc, c4))
    ensures ImportOf((), c, 0) == Ok(Parsed(imp, c4))
  {
  }

  /** The stream holds a UTF-8 name, its length first. */
  predicate NameHeld(c: Cursor, len: seq<byte>, s: seq<byte>) {
    U32Encoding(len, |s|) && HoldsAt(c, len) && HoldsAt(Ahead(c, |len|), s) && Utf8(s)
  }

  function NameEnd(c: Cursor, len: seq<byte>, s: seq<byte>): Cursor {
    Ahead(Ahead(c, |len|), |s|)
  }

  /** A function import is read back from its encoding: the two names, the
      kind byte 0 and the type index. */
  lemma FuncImportRoundTrip(c: Cursor, moduleName: seq<byte>, name: seq<byte>, typeIdx: nat,
                            len1: seq<byte>, len2: seq<byte>, idx: seq<byte>)
    requires NameHeld(c, len1, moduleName)
    requires NameHeld(NameEnd(c, len1, moduleName), len2, name)
    requires HoldsAt(NameEnd(NameEnd(c, len1, moduleName), len2, name), [0])
    requires U32Encoding(idx, typeIdx) && HoldsAt(Ahead(NameEnd(NameEnd(c, len1, moduleName), len2, name), 1), idx)
    ensures ImportOf((), c, 0)
            == Ok(Parsed(Import(moduleName, name, FuncImport(typeIdx)),
                         Ahead(Ahead(NameEnd(NameEnd(c, len1, moduleName), len2, name), 1), |idx|)))
  {
    var c1 := NameEnd(c, len1, moduleName);
    var c2 := NameEnd(c1, len2, name);
    var c3 := Ahead(c2, 1);
    ExpectStringHeld(c, len1, moduleName);
    ExpectStringHeld(c1, len2, name);
    ExpectByteHeld(c2, 0, 0, 3);
    ExpectU32Held(c3, idx, typeIdx);
    ImportParts(c, Import(moduleName, name, FuncImport(typeIdx)), c1, c2, c3, Ahead(c3, |idx|));
  }

  /** ImportsBuilder::scan: the section's vector becomes the module's
      imports. An error leaves them as they were. */
  method Scan(parser: BinaryParser, compiler: ModuleCompiler) returns (r: Result<()>)
    modifies parser, compiler
    ensures var spec := Vector((), old(parser.At()), ImportOf);
      (spec.Ok? ==> r == Ok(()) && compiler.imports == spec.value.v && parser.At() == spec.value.next)
      && (spec.Err? ==> r == Err(spec.error) && compiler.imports == old(compiler.imports))
    ensures compiler.types == old(compiler.types) && compiler.funcs == old(compiler.funcs)
    ensures compiler.exports == old(compiler.exports) && compiler.elems == old(compiler.elems)
    ensures compiler.start == old(compiler.start)
  {
    ImportReadsForward();
    var imports := parser.ExpectVector((), ImportOf);
    if imports.Err? {
      return Err(imports.error);
    }
    compiler.imports := imports.value;
    r := Ok(());
  }
}

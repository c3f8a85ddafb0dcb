/** The function and code sections (src/Compiler/Binary/FuncsBuilder.php):
    the builder object that remembers the function section's type indices
    until the code section pairs each body with its type, and the
    expression decoder run in place on the shared parser. */
module FuncsBuilder {
  import opened Exceptions
  import opened Token
  import opened Stream
  import opened NodeType
  import opened Ast
  import opened Parser
  import opened Compiler
  import opened Instructions

  /** The function section has id 3 and the code section id 10. */
  predicate Supported(sectionId: int) {
    sectionId == 3 || sectionId == 10
  }

  // ---------------------------------------------------------------------
  // the decoders of the two sections

  /** An element of the function section: a type index. */
  function TypeIdxElem(x: (), c: Cursor, i: nat): (r: Result<Parsed<nat>>)
    ensures r.Ok? ==> Advanced(c, r.value.next)
  {
    U32(c)
  }

  /** `array_merge([], ...$runs)`: the runs one after the other. */
  function Flatten(runs: seq<seq<ValueType>>): (r: seq<ValueType>)
    decreases runs
  {
    if runs == [] then [] else runs[0] + Flatten(runs[1..])
  }

  /** A run of locals: a count and a value type, expanded by `array_fill`
      to that many copies of the type. */
  function LocalsRun(x: (), c: Cursor, i: nat): (r: Result<Parsed<seq<ValueType>>>)
    ensures r.Ok? ==> Advanced(c, r.value.next)
  {
    match U32(c)
    case Err(e) => Err(e)
    case Ok(n) =>
      ReadNAdvances(n.next, 1);
      match ValueTypeOf(n.next)
      case Err(e) => Err(e)
      case Ok(t) => Ok(Parsed(Text.Repeat(t.v, n.v), t.next))
  }

  /** The run as written: after the count, the call of the undefined
      `TypesBuilder::valuetype` fails. */
  function LocalsRunAsWritten(x: (), c: Cursor, i: nat): (r: Result<Parsed<seq<ValueType>>>)
    ensures r.Err?
  {
    match U32(c)
    case Err(e) => Err(e)
    case Ok(n) => Err(ValueTypeAsWritten(n.next).error)
  }

  const FUNC_TYPE_NULL: string :=
    "UnWasm\\Compiler\\Node\\Code\\Func::__construct(): Argument #1 ($type) must be of type int, null given"

  /** The body of code entry `index`: the runs of locals, the expression up
      to 0x0B, and the type index the function section gave the same
      index. An index the function section did not reach is looked up as
      null, which Func's `int` parameter rejects. */
  function CodeBody(x: (seq<nat>, nat), c: Cursor, start: nat, size: nat): (r: Result<Parsed<Func>>)
    ensures r.Ok? ==> Advanced(c, r.value.next)
    ensures r.Ok? ==> x.1 < |x.0| && r.value.v.typeIdx == x.0[x.1]
  {
    VectorAdvances((), c, LocalsRun);
    match Vector((), c, LocalsRun)
    case Err(e) => Err(e)
    case Ok(runs) =>
      match Expr(runs.next, 0x0B, [])
      case Err(e) => Err(e)
      case Ok(body) =>
        if x.1 < |x.0| then
          AdvancedTrans(c, runs.next, body.next);
          Ok(Parsed(Func(x.0[x.1], Flatten(runs.v), body.v), body.next))
        else Err(TypeError(FUNC_TYPE_NULL))
  }

  /** An entry of the code section: the body inside a size-checked region. */
  function CodeElem(funcTypes: seq<nat>, c: Cursor, i: nat): (r: Result<Parsed<Func>>)
    ensures r.Ok? ==> Advanced(c, r.value.next)
    ensures r.Ok? ==> i < |funcTypes| && r.value.v.typeIdx == funcTypes[i]
  {
    ExpectIntDecodes(c, true, Width(32));
    AssertSize((funcTypes, i), c, CodeBody)
  }

  lemma TypeIdxReadsForward()
    ensures ReadsForward((), TypeIdxElem)
  {
  }

  lemma CodeReadsForward(funcTypes: seq<nat>)
    ensures ReadsForward(funcTypes, CodeElem)
  {
  }

  /** Body k of the code section gets the type index the function section
      recorded at index k. */
  lemma CodePairsTypes(funcTypes: seq<nat>, c: Cursor, k: nat)
    requires Vector(funcTypes, c, CodeElem).Ok?
    requires k < |Vector(funcTypes, c, CodeElem).value.v|
    ensures k < |funcTypes| && Vector(funcTypes, c, CodeElem).value.v[k].typeIdx == funcTypes[k]
  {
    var ck := VectorElement(funcTypes, c, CodeElem, k);
  }

  // ---------------------------------------------------------------------
  // the builder

  class Builder {
    /** The type indices of the function section; None until it is read. */
    var funcTypes: Option<seq<nat>>

    constructor()
      ensures funcTypes == None
    {
      funcTypes := None;
    }

    /** FuncsBuilder::expression on the shared parser: the loop appends each
        decoded instruction until the terminator; block, loop and if recurse
        through Structured. */
    static method Expression(parser: BinaryParser, term: byte) returns (r: Result<seq<Instr>>)
      modifies parser
      ensures Agrees(r, Expr(old(parser.At()), term, []), parser.At())
      decreases Rank(parser.At()), 1
    {
      ghost var c0 := parser.At();
      var instructions: seq<Instr> := [];
      var eof := parser.Eof();
      while !eof
        invariant parser.At().data == c0.data && Advanced(c0, parser.At())
        invariant eof == parser.At().eof
        invariant Expr(c0, term, []) == Expr(parser.At(), term, instructions)
        decreases Rank(parser.At())
      {
        ghost var before := parser.At();
        ReadNAdvances(before, 1);
        var at := parser.Position();
        var opcode := parser.ExpectAnyByte();
        ghost var mid := parser.At();
        assert Rank(mid) < Rank(before);
        if opcode == term {
          return Ok(instructions);
        }
        if 0x02 <= opcode <= 0x04 {
          var node := Structured(parser, opcode, term);
          if node.Err? {
            return Err(node.error);
          }
          instructions := instructions + [node.value];
        } else {
          var node := InstrOf(opcode, parser.At(), at, term);
          if node.Err? {
            return Err(node.error);
          }
          parser.Commit(node.value.next);
          instructions := instructions + [node.value.v];
        }
        AdvancedRank(mid, parser.At());
        AdvancedTrans(c0, mid, parser.At());
        eof := parser.Eof();
      }
      r := Err(TypeError(NoneReturned(EXPRESSION)));
    }

    /** The block, loop and if cases of controlInstr: the blocktype, then
        the nested expression with the same terminator. */
    static method Structured(parser: BinaryParser, op: byte, term: byte) returns (r: Result<Instr>)
      requires 0x02 <= op <= 0x04
      modifies parser
      ensures Agrees(r, ControlInstr(op, old(parser.At()), term).value, parser.At())
      decreases Rank(parser.At()), 2
    {
      var bt := ParseBlocktype(parser.At());
      if bt.Err? {
        return Err(bt.error);
      }
      parser.Commit(bt.value.next);
      var inner := Expression(parser, term);
      if inner.Err? {
        return Err(inner.error);
      }
      r := Ok(StructuredNode(op, inner.value, bt.value.v));
    }

    /** FuncsBuilder::scan. The first call reads the function section into
        the type indices; every later call reads a code section, pairing
        body i with type index i, into the module's functions. An error
        leaves both as they were. */
    method Scan(parser: BinaryParser, compiler: ModuleCompiler) returns (r: Result<()>)
      modifies this, parser, compiler
      ensures old(funcTypes).None? ==>
        var spec := Vector((), old(parser.At()), TypeIdxElem);
        (spec.Ok? ==> r == Ok(()) && funcTypes == Some(spec.value.v) && parser.At() == spec.value.next)
        && (spec.Err? ==> r == Err(spec.error) && funcTypes == None)
        && compiler.funcs == old(compiler.funcs)
      ensures old(funcTypes).Some? ==>
        var spec := Vector(old(funcTypes).value, old(parser.At()), CodeElem);
        (spec.Ok? ==> r == Ok(()) && compiler.funcs == spec.value.v && parser.At() == spec.value.next)
        && (spec.Err? ==> r == Err(spec.error) && compiler.funcs == old(compiler.funcs))
        && funcTypes == old(funcTypes)
      ensures compiler.types == old(compiler.types) && compiler.imports == old(compiler.imports)
      ensures compiler.exports == old(compiler.exports) && compiler.elems == old(compiler.elems)
      ensures compiler.start == old(compiler.start)
    {
      if funcTypes.None? {
        TypeIdxReadsForward();
        var types := parser.ExpectVector((), TypeIdxElem);
        if types.Err? {
          return Err(types.error);
        }
        funcTypes := Some(types.value);
      } else {
        CodeReadsForward(funcTypes.value);
        var funcs := parser.ExpectVector(funcTypes.value, CodeElem);
        if funcs.Err? {
          return Err(funcs.error);
        }
        compiler.funcs := funcs.value;
      }
      r := Ok(());
    }
  }
}

/** The instruction decoder of the code section
    (src/Compiler/Binary/FuncsBuilder.php): the opcode tables of the seven
    instruction families, the blocktype, and the expression, a run of
    instructions up to its terminator opcode. Each decoder is a function of
    the stream; the parser method that runs `expression` in place is
    `FuncsBuilder.Builder.Expression`. */
module Instructions {
  import opened Exceptions
  import opened Text
  import opened Token
  import opened Stream
  import opened NodeType
  import opened Ast
  import TypesBuilder

  /** `expectInt(true)`: an unsigned 32-bit immediate. */
  function U32(c: Cursor): (r: Result<Parsed<nat>>)
    ensures r.Ok? ==> Advanced(c, r.value.next)
    ensures r.Err? ==> r.error == RuntimeException("Invalid integer provided")
  {
    match Stream.ExpectInt(c, true, 32)
    case Ok(p) => Ok(Parsed(p.v as nat, p.next))
    case Err(e) => Err(e)
  }

  /** `expectByte(0x00)`: one byte read and not checked, since a bound of 0
      is no bound. */
  function Reserved(c: Cursor): (next: Cursor)
    ensures next == ReadN(c, 1).next && Advanced(c, next)
  {
    ReadNAdvances(c, 1);
    match Stream.ExpectByte(c, 0, 0)
    case Ok(p) => p.next
    case Err(_) => c
  }

  /** The message of PHP's TypeError when a function declared to return an
      array ends without a return. */
  function NoneReturned(fn: string): string {
    fn + "(): Return value must be of type array, none returned"
  }

  const EXPRESSION: string := "UnWasm\\Compiler\\Binary\\FuncsBuilder::expression"
  const PARSE_BLOCKTYPE: string := "UnWasm\\Compiler\\Binary\\FuncsBuilder::parseBlocktype"

  /** The message of miscInstr's exception for an opcode no table knows:
      the opcode as two hex digits and the position of the opcode byte as
      eight. */
  function UnknownOpcode(op: byte, at: nat): string {
    "Unknown opcode 0x" + PadLeft(Hex(op), 2, '0') + "@0x" + PadLeft(Hex(at), 8, '0')
  }

  // ---------------------------------------------------------------------
  // value types

  const UNDEFINED_VALUETYPE: string := "Call to undefined method UnWasm\\Compiler\\Binary\\TypesBuilder::valuetype()"
  const UNDEFINED_REFTYPE: string := "Call to undefined method UnWasm\\Compiler\\Binary\\TypesBuilder::reftype()"

  /** `TypesBuilder::valuetype($parser)` as the decoder calls it: the binary
      TypesBuilder defines no such method, so the call fails. */
  function ValueTypeAsWritten(c: Cursor): (r: Result<Parsed<ValueType>>)
    ensures r.Err? && r.error.PhpError?
  {
    Err(PhpError(UNDEFINED_VALUETYPE))
  }

  /** `TypesBuilder::reftype($parser)` as the decoder calls it: undefined. */
  function RefTypeAsWritten(c: Cursor): (r: Result<Parsed<RefType>>)
    ensures r.Err? && r.error.PhpError?
  {
    Err(PhpError(UNDEFINED_REFTYPE))
  }

  /** The value type the call is evidently meant to read: one type byte, as
      TypesBuilder::resulttype reads each of its elements. */
  function ValueTypeOf(c: Cursor): (r: Result<Parsed<ValueType>>)
    ensures r == Ok(Parsed(ValueType(NextByte(c)), ReadN(c, 1).next))
  {
    match Stream.ExpectByte(c, 0, 0)
    case Ok(b) => Ok(Parsed(ValueType(b.v), b.next))
    case Err(e) => Err(e)
  }

  /** The reference type the call is evidently meant to read: one type
      byte, as TypesBuilder::tabletype reads it. */
  function RefTypeOf(c: Cursor): (r: Result<Parsed<RefType>>)
    ensures r == Ok(Parsed(RefType(NextByte(c)), ReadN(c, 1).next))
  {
    match Stream.ExpectByte(c, 0, 0)
    case Ok(b) => Ok(Parsed(RefType(b.v), b.next))
    case Err(e) => Err(e)
  }

  /** `TypesBuilder::valuetype($parser, $raw)` evidently meant: the value
      type whose one-byte signed LEB128 encoding decodes to `raw`, if any. */
  function RawValueType(raw: int): (t: Option<ValueType>)
    ensures t.Some? ==> IsValueTypeCode(t.value.code) && raw == t.value.code as int - 128
    ensures (-128 <= raw < 0 && IsValueTypeCode((raw + 128) as byte)) ==> t.Some?
  {
    if -128 <= raw < 0 && IsValueTypeCode((raw + 128) as byte) then Some(ValueType((raw + 128) as byte))
    else None
  }

  // ---------------------------------------------------------------------
  // blocktype

  /** A decoded blocktype: an inline signature or a type index. */
  datatype Blocktype = Blocktype(funcType: Option<FuncType>, typeIdx: Option<nat>)

  /** parseBlocktype as written: every raw value but -64 reaches the call
      of the undefined `TypesBuilder::valuetype`. */
  function ParseBlocktypeAsWritten(c: Cursor): (r: Result<Parsed<Blocktype>>)
    ensures r.Ok? ==> r.value.v == Blocktype(Some(FuncType([], [])), None)
  {
    match Stream.ExpectInt(c, false, 33)
    case Err(e) => Err(e)
    case Ok(raw) =>
      if raw.v == -64 then Ok(Parsed(Blocktype(Some(FuncType([], [])), None), raw.next))
      else Err(ValueTypeAsWritten(raw.next).error)
  }

  /** parseBlocktype with the value type looked up: a signed 33-bit integer
      that is -64 (the byte 0x40) for the empty signature, the encoding of a
      value type for a signature with that one result, or a non-negative
      type index. Any other negative value falls off the end of the
      function, which is declared to return an array. */
  function ParseBlocktype(c: Cursor): (r: Result<Parsed<Blocktype>>)
    ensures r.Ok? ==> Advanced(c, r.value.next)
    ensures var raw := Stream.ExpectInt(c, false, 33);
      r.Ok? <==> raw.Ok? && (raw.value.v == -64 || RawValueType(raw.value.v).Some? || raw.value.v >= 0)
    ensures Stream.ExpectInt(c, false, 33).Ok? && r.Err? ==> r.error == TypeError(NoneReturned(PARSE_BLOCKTYPE))
  {
    match Stream.ExpectInt(c, false, 33)
    case Err(e) => Err(e)
    case Ok(raw) =>
      if raw.v == -64 then Ok(Parsed(Blocktype(Some(FuncType([], [])), None), raw.next))
      else if RawValueType(raw.v).Some? then
        Ok(Parsed(Blocktype(Some(FuncType([], [RawValueType(raw.v).value])), None), raw.next))
      else if raw.v >= 0 then Ok(Parsed(Blocktype(None, Some(raw.v)), raw.next))
      else Err(TypeError(NoneReturned(PARSE_BLOCKTYPE)))
  }

  // ---------------------------------------------------------------------
  // the families without nested expressions

  /** varInstr: 0x20 .. 0x26 each read one index. */
  function VarNode(op: byte, x: nat): Instr
    requires 0x20 <= op <= 0x26
  {
    if op == 0x20 then LocalGet(x)
    else if op == 0x21 then LocalSet(x, false)
    else if op == 0x22 then LocalSet(x, true)
    else if op == 0x23 then GlobalGet(x)
    else if op == 0x24 then GlobalSet(x)
    else if op == 0x25 then TableGet(x)
    else TableSet(x)
  }

  function VarInstr(op: byte, c: Cursor): (r: Option<Result<Parsed<Instr>>>)
    ensures r.Some? <==> 0x20 <= op <= 0x26
    ensures r.Some? && r.value.Ok? ==> Advanced(c, r.value.value.next)
  {
    if 0x20 <= op <= 0x26 then
      Some(match U32(c)
           case Err(e) => Err(e)
           case Ok(x) => Ok(Parsed(VarNode(op, x.v), x.next)))
    else None
  }

  /** A memory argument: the alignment, which is read and dropped, then the
      offset. */
  function MemArg(c: Cursor): (r: Result<Parsed<nat>>)
    ensures r.Ok? ==> Advanced(c, r.value.next)
  {
    match U32(c)
    case Err(e) => Err(e)
    case Ok(align) => U32(align.next)
  }

  /** The loads 0x28 .. 0x35: the full-width loads of the four value types,
      then the narrow integer loads, each width signed then unsigned. */
  function LoadNode(op: byte, offset: nat): Instr
    requires 0x28 <= op <= 0x35
  {
    if op == 0x28 then Load(ValueType(I32), offset, None, None)
    else if op == 0x29 then Load(ValueType(I64), offset, None, None)
    else if op == 0x2A then Load(ValueType(F32), offset, None, None)
    else if op == 0x2B then Load(ValueType(F64), offset, None, None)
    else if op == 0x2C then Load(ValueType(I32), offset, Some(8), Some(true))
    else if op == 0x2D then Load(ValueType(I32), offset, Some(8), Some(false))
    else if op == 0x2E then Load(ValueType(I32), offset, Some(16), Some(true))
    else if op == 0x2F then Load(ValueType(I32), offset, Some(16), Some(false))
    else if op == 0x30 then Load(ValueType(I64), offset, Some(8), Some(true))
    else if op == 0x31 then Load(ValueType(I64), offset, Some(8), Some(false))
    else if op == 0x32 then Load(ValueType(I64), offset, Some(16), Some(true))
    else if op == 0x33 then Load(ValueType(I64), offset, Some(16), Some(false))
    else if op == 0x34 then Load(ValueType(I64), offset, Some(32), Some(true))
    else Load(ValueType(I64), offset, Some(32), Some(false))
  }

  /** The stores 0x36 .. 0x3E: full width, then the narrow integer stores. */
  function StoreNode(op: byte, offset: nat): Instr
    requires 0x36 <= op <= 0x3E
  {
    if op == 0x36 then Store(ValueType(I32), offset, None)
    else if op == 0x37 then Store(ValueType(I64), offset, None)
    else if op == 0x38 then Store(ValueType(F32), offset, None)
    else if op == 0x39 then Store(ValueType(F64), offset, None)
    else if op == 0x3A then Store(ValueType(I32), offset, Some(8))
    else if op == 0x3B then Store(ValueType(I32), offset, Some(16))
    else if op == 0x3C then Store(ValueType(I64), offset, Some(8))
    else if op == 0x3D then Store(ValueType(I64), offset, Some(16))
    else Store(ValueType(I64), offset, Some(32))
  }

  function MemoryInstr(op: byte, c: Cursor): (r: Option<Result<Parsed<Instr>>>)
    ensures r.Some? <==> 0x28 <= op <= 0x40
    ensures r.Some? && r.value.Ok? ==> Advanced(c, r.value.value.next)
  {
    if 0x28 <= op <= 0x35 then
      Some(match MemArg(c)
           case Err(e) => Err(e)
           case Ok(offset) => Ok(Parsed(LoadNode(op, offset.v), offset.next)))
    else if 0x36 <= op <= 0x3E then
      Some(match MemArg(c)
           case Err(e) => Err(e)
           case Ok(offset) => Ok(Parsed(StoreNode(op, offset.v), offset.next)))
    else if op == 0x3F then Some(Ok(Parsed(MemSize, Reserved(c))))
    else if op == 0x40 then Some(Ok(Parsed(MemGrow, Reserved(c))))
    else None
  }

  /** constInstr: i32 and i64 constants are signed LEB128 integers of 32
      and 64 bits; float constants are kept as their raw bytes. */
  function ConstInstr(op: byte, c: Cursor): (r: Option<Result<Parsed<Instr>>>)
    ensures r.Some? <==> 0x41 <= op <= 0x44
    ensures r.Some? && r.value.Ok? ==> Advanced(c, r.value.value.next)
  {
    if op == 0x41 then
      Some(match Stream.ExpectInt(c, false, 32)
           case Err(e) => Err(e)
           case Ok(v) => Ok(Parsed(Const(ValueType(I32), IntConst(v.v)), v.next)))
    else if op == 0x42 then
      Some(match Stream.ExpectInt(c, false, 64)
           case Err(e) => Err(e)
           case Ok(v) => Ok(Parsed(Const(ValueType(I64), IntConst(v.v)), v.next)))
    else if op == 0x43 then
      var f := Stream.ExpectFloat(c, 32);
      Some(Ok(Parsed(Const(ValueType(F32), FloatConst(f.v)), f.next)))
    else if op == 0x44 then
      var f := Stream.ExpectFloat(c, 64);
      Some(Ok(Parsed(Const(ValueType(F64), FloatConst(f.v)), f.next)))
    else None
  }

  /** compInstr: the comparisons 0x45 .. 0x66. The signed and unsigned
      variants of an integer comparison give the same node. */
  function CompInstr(op: byte): (r: Option<Instr>)
    ensures r.Some? <==> 0x45 <= op <= 0x66
    ensures r.Some? ==> r.value.Cmp?
  {
    if op == 0x45 then Some(Cmp(Eqz, ValueType(I32)))
    else if op == 0x46 then Some(Cmp(Eq, ValueType(I32)))
    else if op == 0x47 then Some(Cmp(Neq, ValueType(I32)))
    else if op == 0x48 || op == 0x49 then Some(Cmp(Lt, ValueType(I32)))
    else if op == 0x4A || op == 0x4B then Some(Cmp(Gt, ValueType(I32)))
    else if op == 0x4C || op == 0x4D then Some(Cmp(Le, ValueType(I32)))
    else if op == 0x4E || op == 0x4F then Some(Cmp(Ge, ValueType(I32)))
    else if op == 0x50 then Some(Cmp(Eqz, ValueType(I64)))
    else if op == 0x51 then Some(Cmp(Eq, ValueType(I64)))
    else if op == 0x52 then Some(Cmp(Neq, ValueType(I64)))
    else if op == 0x53 || op == 0x54 then Some(Cmp(Lt, ValueType(I64)))
    else if op == 0x55 || op == 0x56 then Some(Cmp(Gt, ValueType(I64)))
    else if op == 0x57 || op == 0x58 then Some(Cmp(Le, ValueType(I64)))
    else if op == 0x59 || op == 0x5A then Some(Cmp(Ge, ValueType(I64)))
    else if op == 0x5B then Some(Cmp(Eq, ValueType(F32)))
    else if op == 0x5C then Some(Cmp(Neq, ValueType(F32)))
    else if op == 0x5D then Some(Cmp(Lt, ValueType(F32)))
    else if op == 0x5E then Some(Cmp(Gt, ValueType(F32)))
    else if op == 0x5F then Some(Cmp(Le, ValueType(F32)))
    else if op == 0x60 then Some(Cmp(Ge, ValueType(F32)))
    else if op == 0x61 then Some(Cmp(Eq, ValueType(F64)))
    else if op == 0x62 then Some(Cmp(Neq, ValueType(F64)))
    else if op == 0x63 then Some(Cmp(Lt, ValueType(F64)))
    else if op == 0x64 then Some(Cmp(Gt, ValueType(F64)))
    else if op == 0x65 then Some(Cmp(Le, ValueType(F64)))
    else if op == 0x66 then Some(Cmp(Ge, ValueType(F64)))
    else None
  }

  /** computeInstr: the arithmetic and bitwise opcodes the compiler
      supports. Signed and unsigned division and right shift give one node;
      the remainders, rotations and the float-only operations are not in
      the table. */
  function ComputeInstr(op: byte): (r: Option<Instr>)
    ensures r.Some? ==> r.value.Arith? && 0x6A <= op <= 0xA3
  {
    if op == 0x6A then Some(Arith(Add, ValueType(I32)))
    else if op == 0x6B then Some(Arith(Sub, ValueType(I32)))
    else if op == 0x6C then Some(Arith(Mul, ValueType(I32)))
    else if op == 0x6D || op == 0x6E then Some(Arith(Div, ValueType(I32)))
    else if op == 0x71 then Some(Arith(BitAnd, ValueType(I32)))
    else if op == 0x72 then Some(Arith(BitOr, ValueType(I32)))
    else if op == 0x73 then Some(Arith(BitXor, ValueType(I32)))
    else if op == 0x74 then Some(Arith(BitShl, ValueType(I32)))
    else if op == 0x75 || op == 0x76 then Some(Arith(BitShr, ValueType(I32)))
    else if op == 0x7C then Some(Arith(Add, ValueType(I64)))
    else if op == 0x7D then Some(Arith(Sub, ValueType(I64)))
    else if op == 0x7E then Some(Arith(Mul, ValueType(I64)))
    else if op == 0x7F || op == 0x80 then Some(Arith(Div, ValueType(I64)))
    else if op == 0x83 then Some(Arith(BitAnd, ValueType(I64)))
    else if op == 0x84 then Some(Arith(BitOr, ValueType(I64)))
    else if op == 0x85 then Some(Arith(BitXor, ValueType(I64)))
    else if op == 0x86 then Some(Arith(BitShl, ValueType(I64)))
    else if op == 0x87 || op == 0x88 then Some(Arith(BitShr, ValueType(I64)))
    else if op == 0x92 then Some(Arith(Add, ValueType(F32)))
    else if op == 0x93 then Some(Arith(Sub, ValueType(F32)))
    else if op == 0x94 then Some(Arith(Mul, ValueType(F32)))
    else if op == 0x95 then Some(Arith(Div, ValueType(F32)))
    else if op == 0xA0 then Some(Arith(Add, ValueType(F64)))
    else if op == 0xA1 then Some(Arith(Sub, ValueType(F64)))
    else if op == 0xA2 then Some(Arith(Mul, ValueType(F64)))
    else if op == 0xA3 then Some(Arith(Div, ValueType(F64)))
    else None
  }

  /** The secondary opcodes after 0xFC: bulk memory and table operations. */
  function SecondaryInstr(sec: nat, c: Cursor): (r: Result<Parsed<Instr>>)
    ensures r.Ok? ==> Advanced(c, r.value.next) && 8 <= sec <= 17
    ensures !(8 <= sec <= 17) ==> r == Err(RuntimeException("Unknown secondary opcode " + NatToString(sec)))
  {
    if sec == 8 then
      match U32(c)
      case Err(e) => Err(e)
      case Ok(d) => Ok(Parsed(MemInit(d.v), Reserved(d.next)))
    else if sec == 9 then
      match U32(c)
      case Err(e) => Err(e)
      case Ok(d) => Ok(Parsed(DataDrop(d.v), d.next))
    else if sec == 10 then Ok(Parsed(MemCopy, Reserved(Reserved(c))))
    else if sec == 11 then Ok(Parsed(MemFill, Reserved(c)))
    else if sec == 12 then
      match U32(c)
      case Err(e) => Err(e)
      case Ok(elemIdx) =>
        match U32(elemIdx.next)
        case Err(e) => Err(e)
        case Ok(tableIdx) => Ok(Parsed(TableInit(tableIdx.v, elemIdx.v), tableIdx.next))
    else if sec == 13 then
      match U32(c)
      case Err(e) => Err(e)
      case Ok(x) => Ok(Parsed(ElemDrop(x.v), x.next))
    else if sec == 14 then
      match U32(c)
      case Err(e) => Err(e)
      case Ok(x) =>
        match U32(x.next)
        case Err(e) => Err(e)
        case Ok(y) => Ok(Parsed(TableCopy(x.v, y.v), y.next))
    else if 15 <= sec <= 17 then
      match U32(c)
      case Err(e) => Err(e)
      case Ok(t) =>
        Ok(Parsed(if sec == 15 then TableGrow(t.v) else if sec == 16 then TableSize(t.v) else TableFill(t.v), t.next))
    else Err(RuntimeException("Unknown secondary opcode " + NatToString(sec)))
  }

  /** miscInstr, the last family: references, the 0xFC prefix, and the
      exception for every opcode no family knows. `at` is the position of
      the opcode byte, `position() - 1` once it has been read. */
  function MiscInstr(op: byte, c: Cursor, at: nat): (r: Result<Parsed<Instr>>)
    ensures r.Ok? ==> Advanced(c, r.value.next) && op in {0xD0, 0xD1, 0xD2, 0xFC}
    ensures op !in {0xD0, 0xD1, 0xD2, 0xFC} ==> r == Err(RuntimeException(UnknownOpcode(op, at)))
  {
    if op == 0xD0 then
      ReadNAdvances(c, 1);
      match RefTypeOf(c)
      case Err(e) => Err(e)
      case Ok(t) => Ok(Parsed(RefNull(t.v), t.next))
    else if op == 0xD1 then Ok(Parsed(RefIsNull, c))
    else if op == 0xD2 then
      match U32(c)
      case Err(e) => Err(e)
      case Ok(f) => Ok(Parsed(RefFunc(f.v), f.next))
    else if op == 0xFC then
      match U32(c)
      case Err(e) => Err(e)
      case Ok(sec) =>
        match SecondaryInstr(sec.v, sec.next)
        case Err(e) => Err(e)
        case Ok(i) => Ok(i)
    else Err(RuntimeException(UnknownOpcode(op, at)))
  }

  // ---------------------------------------------------------------------
  // the control family and the expression

  /** `new BranchUncond()` as written for opcode 0x0F (return):
      BranchUncond's constructor requires the depth, so PHP raises an
      ArgumentCountError. */
  function ReturnAsWritten(c: Cursor): (r: Result<Parsed<Instr>>)
    ensures r.Err? && r.error.ArgumentCountError?
  {
    Err(ArgumentCountError(BRANCH_UNCOND_ARGUMENTS))
  }

  const BRANCH_UNCOND_ARGUMENTS: string :=
    "Too few arguments to function UnWasm\\Compiler\\Node\\Code\\Control\\BranchUncond::__construct(), 0 passed and exactly 1 expected"

  /** Block, Loop or IfElse around a body and a blocktype. */
  function StructuredNode(op: byte, body: seq<Instr>, bt: Blocktype): Instr
    requires 0x02 <= op <= 0x04
  {
    if op == 0x02 then Block(body, bt.funcType, bt.typeIdx)
    else if op == 0x03 then Loop(body, bt.funcType, bt.typeIdx)
    else IfElse(body, bt.funcType, bt.typeIdx)
  }

  /** controlInstr. Block, loop and if read a blocktype and then a nested
      expression with the same terminator; 0x0F is decoded as `return`
      (see ReturnAsWritten for the source's call). */
  function ControlInstr(op: byte, c: Cursor, term: byte): (r: Option<Result<Parsed<Instr>>>)
    ensures r.Some? <==> op in {0x00, 0x01, 0x02, 0x03, 0x04, 0x05, 0x0C, 0x0D, 0x0F, 0x10, 0x11, 0x1A, 0x1B, 0x1C}
    ensures r.Some? && r.value.Ok? ==> Advanced(c, r.value.value.next)
    decreases Rank(c), 2
  {
    if op == 0x00 then Some(Ok(Parsed(Unreachable, c)))
    else if op == 0x01 then Some(Ok(Parsed(Nop, c)))
    else if 0x02 <= op <= 0x04 then
      Some(match ParseBlocktype(c)
           case Err(e) => Err(e)
           case Ok(bt) =>
             match Expr(bt.next, term, [])
             case Err(e) => Err(e)
             case Ok(body) => Ok(Parsed(StructuredNode(op, body.v, bt.v), body.next)))
    else if op == 0x05 then Some(Ok(Parsed(ElseStmt, c)))
    else if op == 0x0C || op == 0x0D || op == 0x10 then
      Some(match U32(c)
           case Err(e) => Err(e)
           case Ok(x) =>
             Ok(Parsed(if op == 0x0C then BranchUncond(x.v) else if op == 0x0D then BranchCond(x.v) else Call(x.v), x.next)))
    else if op == 0x0F then Some(Ok(Parsed(Return, c)))
    else if op == 0x11 then
      Some(match U32(c)
           case Err(e) => Err(e)
           case Ok(typeIdx) =>
             match U32(typeIdx.next)
             case Err(e) => Err(e)
             case Ok(tableIdx) => Ok(Parsed(CallIndirect(tableIdx.v, typeIdx.v), tableIdx.next)))
    else if op == 0x1A then Some(Ok(Parsed(Drop, c)))
    else if op == 0x1B then Some(Ok(Parsed(Select(None), c)))
    else if op == 0x1C then
      TypesBuilder.ResultTypeAdvances(c);
      Some(match TypesBuilder.ResultType(c)
           case Err(e) => Err(e)
           case Ok(ts) => Ok(Parsed(Select(Some(ts.v)), ts.next)))
    else None
  }

  /** One instruction after its opcode: the families are tried in the
      source's order, control, variable, memory, constant, comparison,
      arithmetic, and the miscellaneous family last, which raises the
      exception for an unknown opcode. */
  function InstrOf(op: byte, c: Cursor, at: nat, term: byte): (r: Result<Parsed<Instr>>)
    ensures r.Ok? ==> Advanced(c, r.value.next)
    decreases Rank(c), 3
  {
    match ControlInstr(op, c, term)
    case Some(r) => r
    case None =>
      match VarInstr(op, c)
      case Some(r) => r
      case None =>
        match MemoryInstr(op, c)
        case Some(r) => r
        case None =>
          match ConstInstr(op, c)
          case Some(r) => r
          case None =>
            match CompInstr(op)
            case Some(i) => Ok(Parsed(i, c))
            case None =>
              match ComputeInstr(op)
              case Some(i) => Ok(Parsed(i, c))
              case None => MiscInstr(op, c, at)
  }

  /** FuncsBuilder::expression from the instructions `acc` read so far: while
      the stream is not at its end, read an opcode; the terminator ends the
      expression, any other opcode is decoded and appended. Reaching the
      end of the stream without the terminator leaves the loop and falls
      off the function, which is declared to return an array. */
  function Expr(c: Cursor, term: byte, acc: seq<Instr>): (r: Result<Parsed<seq<Instr>>>)
    ensures r.Ok? ==> Advanced(c, r.value.next)
    ensures c.eof ==> r == Err(TypeError(NoneReturned(EXPRESSION)))
    decreases Rank(c), 0
  {
    if c.eof then Err(TypeError(NoneReturned(EXPRESSION)))
    else
      ReadNAdvances(c, 1);
      match Stream.ExpectByte(c, 0, 0)
      case Err(e) => Err(e)
      case Ok(op) =>
        if op.v == term then Ok(Parsed(acc, op.next))
        else
          match InstrOf(op.v, op.next, c.pos, term)
          case Err(e) => Err(e)
          case Ok(i) =>
            AdvancedTrans(c, op.next, i.next);
            Expr(i.next, term, acc + [i.v])
  }

  // ---------------------------------------------------------------------
  // what the tables promise

  /** The comparisons that order their operands; on integers each comes as
      a signed and an unsigned opcode. */
  predicate Ordering(k: CmpOp) {
    k.Lt? || k.Gt? || k.Le? || k.Ge?
  }

  /** The place of comparison `k` in the i32 and i64 rows of the binary
      format: eqz, eq, ne, then lt, gt, le and ge, each signed and
      unsigned. */
  function IntCmpIndex(k: CmpOp): nat {
    match k
    case Eqz => 0
    case Eq => 1
    case Neq => 2
    case Lt => 3
    case Gt => 5
    case Le => 7
    case Ge => 9
  }

  /** The place of comparison `k` in the f32 and f64 rows: eq, ne, lt, gt,
      le, ge (floats have no eqz). */
  function FloatCmpIndex(k: CmpOp): nat {
    if k.Eq? then 0 else if k.Neq? then 1 else if k.Lt? then 2
    else if k.Gt? then 3 else if k.Le? then 4 else 5
  }

  /** The opcodes section 5.4.7 of the WebAssembly Core Specification gives
      comparison `k` on type `t`: the i32 row from 0x45, the i64 row from
      0x50, the f32 row from 0x5B and the f64 row from 0x61. */
  function CmpOpcodes(k: CmpOp, t: ValueType): set<int> {
    if t.code == I32 || t.code == I64 then
      var first := (if t.code == I32 then 0x45 else 0x50) + IntCmpIndex(k);
      if Ordering(k) then {first, first + 1} else {first}
    else if (t.code == F32 || t.code == F64) && !k.Eqz? then
      {(if t.code == F32 then 0x5B else 0x61) + FloatCmpIndex(k)}
    else {}
  }

  /** compInstr gives comparison `k` on `t` for exactly the opcodes of that
      comparison: the signed and unsigned opcode of an ordering on integers
      both, and no other. */
  lemma CmpOpcodesExact(op: byte, k: CmpOp, t: ValueType)
    ensures CompInstr(op) == Some(Cmp(k, t)) <==> op as int in CmpOpcodes(k, t)
  {
  }

  /** The two opcodes of an integer ordering give one node. */
  lemma SignednessDropped(k: CmpOp, t: ValueType)
    requires Ordering(k) && (t.code == I32 || t.code == I64)
    ensures var first := (if t.code == I32 then 0x45 else 0x50) + IntCmpIndex(k);
      CompInstr(first as byte) == CompInstr((first + 1) as byte) == Some(Cmp(k, t))
  {
    var first := (if t.code == I32 then 0x45 else 0x50) + IntCmpIndex(k);
    CmpOpcodesExact(first as byte, k, t);
    CmpOpcodesExact((first + 1) as byte, k, t);
  }

  /** The narrow loads 0x2C .. 0x35: i32 for the first four, i64 for the
      rest; widths 8, 8, 16, 16 for i32 and 8, 8, 16, 16, 32, 32 for i64;
      signed for the even opcodes. */
  lemma NarrowLoadShape(op: byte, offset: nat)
    requires 0x2C <= op <= 0x35
    ensures var n := LoadNode(op, offset);
      n.offset == offset
      && n.valueType == ValueType(if op <= 0x2F then I32 else I64)
      && n.memBits == Some(if op <= 0x2F then (if op <= 0x2D then 8 else 16)
                           else [8, 16, 32][(op - 0x30) / 2])
      && n.signed == Some(op % 2 == 0)
  {
  }

  /** Distinct load opcodes give distinct nodes. */
  lemma LoadNodeInjective(a: byte, b: byte, offset: nat)
    requires 0x28 <= a <= 0x35 && 0x28 <= b <= 0x35 && LoadNode(a, offset) == LoadNode(b, offset)
    ensures a == b
  {
  }

  /** A memory argument reads the alignment, drops it, then reads the
      offset. */
  lemma MemArgReads(c: Cursor, alignEnc: seq<byte>, align: nat, offsetEnc: seq<byte>, offset: nat)
    requires U32Encoding(alignEnc, align) && HoldsAt(c, alignEnc)
    requires U32Encoding(offsetEnc, offset) && HoldsAt(Ahead(c, |alignEnc|), offsetEnc)
    ensures MemArg(c) == Ok(Parsed(offset, Ahead(Ahead(c, |alignEnc|), |offsetEnc|)))
  {
    ExpectU32Held(c, alignEnc, align);
    ExpectU32Held(Ahead(c, |alignEnc|), offsetEnc, offset);
  }

  /** An opcode no family knows raises the exception naming it and the
      position of its byte. */
  lemma UnknownOpcodeThrows(op: byte, c: Cursor, at: nat, term: byte)
    requires op !in {0x00, 0x01, 0x02, 0x03, 0x04, 0x05, 0x0C, 0x0D, 0x0F, 0x10, 0x11, 0x1A, 0x1B, 0x1C}
    requires !(0x20 <= op <= 0x66) && ComputeInstr(op).None? && op !in {0xD0, 0xD1, 0xD2, 0xFC}
    ensures InstrOf(op, c, at, term) == Err(RuntimeException(UnknownOpcode(op, at)))
  {
  }

  /** The terminator ends the expression with the instructions read so
      far. */
  lemma ExprStopsAtTerminator(c: Cursor, term: byte, acc: seq<Instr>)
    requires !c.eof && HoldsAt(c, [term])
    ensures Expr(c, term, acc) == Ok(Parsed(acc, Ahead(c, 1)))
  {
    ExpectByteHeld(c, term, 0, 0);
  }

  /** Any other opcode is decoded at its position and appended, and the
      expression goes on after it. */
  lemma ExprAppends(c: Cursor, term: byte, acc: seq<Instr>, op: byte, i: Instr, next: Cursor)
    requires !c.eof && HoldsAt(c, [op]) && op != term
    requires InstrOf(op, Ahead(c, 1), c.pos, term) == Ok(Parsed(i, next))
    ensures Expr(c, term, acc) == Expr(next, term, acc + [i])
  {
    ExpectByteHeld(c, op, 0, 0);
  }

  /** The code `0x0F 0x0B` decodes to a lone return, where the source's
      `new BranchUncond()` for 0x0F raises an ArgumentCountError. */
  lemma ReturnDecoded(c: Cursor)
    requires !c.eof && HoldsAt(c, [0x0F, 0x0B])
    ensures Expr(c, 0x0B, []) == Ok(Parsed([Return], Ahead(Ahead(c, 1), 1)))
    ensures ReturnAsWritten(Ahead(c, 1)).Err?
  {
    HoldsAtSplit(c, [0x0F], [0x0B]);
    assert InstrOf(0x0F, Ahead(c, 1), c.pos, 0x0B) == Ok(Parsed(Return, Ahead(c, 1)));
    ExprAppends(c, 0x0B, [], 0x0F, Return, Ahead(c, 1));
    assert [] + [Return] == [Return];
    ExprStopsAtTerminator(Ahead(c, 1), 0x0B, [Return]);
  }

  /** An entry of a typed select's type vector as the decoder reads it:
      the undefined `TypesBuilder::valuetype`. */
  function SelectTypeAsWritten(x: (), c: Cursor, i: nat): (r: Result<Parsed<ValueType>>)
    ensures r.Err? && r.error.PhpError?
  {
    ValueTypeAsWritten(c)
  }

  /** Opcode 0x1C as written: the vector of value types, every entry read
      with the undefined call. */
  function TypedSelectAsWritten(c: Cursor): (r: Result<Parsed<Instr>>)
  {
    match Vector((), c, SelectTypeAsWritten)
    case Err(e) => Err(e)
    case Ok(ts) => Ok(Parsed(Select(Some(ts.v)), ts.next))
  }

  /** As written, a typed select decodes only with an empty type vector;
      a single entry raises the Error of the undefined call. */
  lemma TypedSelectAsWrittenFails(c: Cursor, count: seq<byte>, n: nat)
    requires U32Encoding(count, n) && HoldsAt(c, count)
    ensures n == 0 ==> TypedSelectAsWritten(c) == Ok(Parsed(Select(Some([])), Ahead(c, |count|)))
    ensures n > 0 ==> TypedSelectAsWritten(c).Err? && TypedSelectAsWritten(c).error.PhpError?
  {
    ExpectU32Held(c, count, n);
  }

  /** With the value types read, a typed select decodes the types its
      vector encodes, where the source's call fails for any entry. */
  lemma TypedSelectDecoded(c: Cursor, count: seq<byte>, ts: seq<ValueType>, term: byte)
    requires TypesBuilder.ResultTypeHeld(c, count, ts)
    ensures ControlInstr(0x1C, c, term) == Some(Ok(Parsed(Select(Some(ts)), TypesBuilder.ResultTypeEnd(c, count, ts))))
    ensures |ts| > 0 ==> TypedSelectAsWritten(c).Err?
  {
    TypesBuilder.ResultTypeRoundTrip(c, count, ts);
    TypedSelectAsWrittenFails(c, count, |ts|);
  }

  /** The blocktype byte 0x7F (-1 as a signed integer, the i32 value type)
      gives a signature with one i32 result, where the source's call of the
      undefined `TypesBuilder::valuetype` fails. */
  lemma ValueBlocktype(c: Cursor)
    requires HoldsAt(c, [0x7F])
    ensures ParseBlocktype(c) == Ok(Parsed(Blocktype(Some(FuncType([], [ValueType(I32)])), None), Ahead(c, 1)))
    ensures ParseBlocktypeAsWritten(c).Err? && ParseBlocktypeAsWritten(c).error.PhpError?
  {
    assert SEncoding([0x7F], -1, 33) by {
      assert [0x7F as byte][1..] == [];
      assert Groups([0x7F]) == 0x7F % 128 + 128 * Groups([]);
      assert WellFormed([0x7F]);
      Pow2Values();
    }
    ExpectSHeld(c, [0x7F], -1, 33);
  }
}

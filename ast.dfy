/** The intermediate representation the binary builders produce
    (src/Compiler/Node): instructions, function bodies, element segments,
    imports and exports. Each constructor records the arguments the
    decoder passes to the node's constructor. */
module Ast {
  import opened Exceptions
  import opened Token
  import opened NodeType

  /** The comparison nodes (Eqz, Eq, Neq, Lt, Gt, Le, Ge). */
  datatype CmpOp = Eqz | Eq | Neq | Lt | Gt | Le | Ge

  /** The binary arithmetic and bitwise nodes. */
  datatype ArithOp = Add | Sub | Mul | Div | BitAnd | BitOr | BitXor | BitShl | BitShr

  /** The operand of ConstStmt: an integer, or the raw bytes of a float. */
  datatype ConstValue = IntConst(i: int) | FloatConst(bits: seq<byte>)

  datatype Instr =
    | Unreachable
    | Nop
      /** Block, Loop and IfElse carry their body and the blocktype: an
          inline signature or a type index */
    | Block(body: seq<Instr>, funcType: Option<FuncType>, typeIdx: Option<nat>)
    | Loop(body: seq<Instr>, funcType: Option<FuncType>, typeIdx: Option<nat>)
    | IfElse(body: seq<Instr>, funcType: Option<FuncType>, typeIdx: Option<nat>)
    | ElseStmt
    | BranchUncond(depth: nat)
    | BranchCond(depth: nat)
      /** `return`: a branch out of the function body, whatever the depth */
    | Return
    | Call(funcIdx: nat)
    | CallIndirect(tableIdx: nat, sigIdx: nat)
    | Drop
    | Select(types: Option<seq<ValueType>>)
    | LocalGet(localIdx: nat)
      /** LocalSet with `retain` is local.tee */
    | LocalSet(localIdx: nat, retain: bool)
    | GlobalGet(globalIdx: nat)
    | GlobalSet(globalIdx: nat)
    | TableGet(tableIdx: nat)
    | TableSet(tableIdx: nat)
      /** a load of `valueType`; `memBits` and `signed` are given for the
          narrow loads only */
    | Load(valueType: ValueType, offset: nat, memBits: Option<nat>, signed: Option<bool>)
    | Store(valueType: ValueType, offset: nat, memBits: Option<nat>)
    | MemSize
    | MemGrow
    | Const(valueType: ValueType, value: ConstValue)
    | Cmp(cmp: CmpOp, valueType: ValueType)
    | Arith(arith: ArithOp, valueType: ValueType)
    | RefNull(refType: RefType)
    | RefIsNull
    | RefFunc(funcIdx: nat)
    | MemInit(dataIdx: nat)
    | DataDrop(dataIdx: nat)
    | MemCopy
    | MemFill
    | TableInit(tableIdx: nat, elemIdx: nat)
    | ElemDrop(elemIdx: nat)
    | TableCopy(x: nat, y: nat)
    | TableGrow(tableIdx: nat)
    | TableSize(tableIdx: nat)
    | TableFill(tableIdx: nat)

  /** Whether an instruction ends its block so that no fall-through
      assignment is written after it (Block's `instanceof` test; a
      BranchIndirect is not produced by the binary decoder). */
  predicate EndsFlow(i: Instr) {
    i.BranchUncond? || i.Return? || i.Unreachable?
  }

  /** A function body: its type index, its locals expanded to one type per
      local, and its instructions. */
  datatype Func = Func(typeIdx: nat, locals: seq<ValueType>, body: seq<Instr>)

  /** The element mode, named after the factory that built the segment. */
  datatype ElemMode = Active | Passive | Declarative

  /** An element segment: init expressions, and for active segments the
      table index and the offset expression. */
  datatype Element = Element(mode: ElemMode, init: seq<seq<Instr>>, tableIdx: Option<nat>, offset: Option<seq<Instr>>)

  datatype Table = Table(tableType: TableType)

  datatype Memory = Memory(memType: MemType)

  /** A global defined in the module: its type and its init expression. */
  datatype Global = Global(globalType: GlobalType, init: seq<Instr>)

  /** A data segment: the memory it initialises, the offset expression of
      an active segment, and its bytes. */
  datatype Data = Data(memIdx: nat, offset: Option<seq<Instr>>, bytes: seq<byte>)

  /** What an import brings in, by kind byte 0..3. */
  datatype ImportDesc =
    | FuncImport(typeIdx: nat)
    | TableImport(tableType: TableType)
    | MemImport(memType: MemType)
    | GlobalImport(globalType: GlobalType)

  datatype Import = Import(moduleName: seq<byte>, name: seq<byte>, desc: ImportDesc)

  /** Export kinds 0..3. */
  datatype ExportKind = FuncExport | TableExport | MemExport | GlobalExport

  datatype Export = Export(kind: ExportKind, name: seq<byte>, index: nat)
}

/** The control-flow and local-variable nodes that drive the operand stack
    and emit PHP (src/Compiler/Node/Code/Control/Block.php,
    BranchUncond.php, BranchCond.php, src/Compiler/Node/Code/Variable/LocalSet.php).
    A block becomes `do { ... } while (0);`, and a branch out of `depth`
    enclosing blocks copies the stack into the target's return variables and
    leaves with `continue depth+1`.

    The nodes are compiled while a function body is written out, when the
    source's position is at its end (nothing is reverted there), so their
    text is stated as appended to the buffer. */
module Control {
  import opened Exceptions
  import opened Text
  import opened NodeType
  import opened Ast
  import opened Stack
  import opened SourceText

  /** The lines one write each: `to = from;` for every return variable,
      taking the stack variables from the front; a missing one is the
      empty string (array_shift of an empty array is null). */
  function Assignments(ret: ReturnMap, from: seq<string>): (lines: seq<seq<string>>)
    ensures |lines| == |ret|
  {
    if ret == [] then []
    else [[ret[0].0 + " = " + (if 0 < |from| then from[0] else "") + ";"]]
         + Assignments(ret[1..], if from == [] then [] else from[1..])
  }

  /** The k-th assignment copies the k-th stack variable, in order, into
      the k-th return variable; past the end of the stack it copies null. */
  lemma {:induction false} AssignmentAt(ret: ReturnMap, from: seq<string>, k: nat)
    requires k < |ret|
    ensures Assignments(ret, from)[k] == [ret[k].0 + " = " + (if k < |from| then from[k] else "") + ";"]
    decreases k
  {
    if k > 0 {
      AssignmentAt(ret[1..], if from == [] then [] else from[1..], k - 1);
    }
  }

  /** The text Block::compileReturn writes for a return map. */
  function ReturnText(ind: nat, ret: ReturnMap, from: seq<string>): string {
    Lines(ind, Assignments(ret, from))
  }

  /** The `continue` that leaves `depth`+1 nested do-while blocks. */
  function ContinueLine(depth: nat): seq<string> {
    ["continue ", NatToString(depth + 1), ";"]
  }

  /** BranchCond's continue: bare at depth 0, numbered otherwise. */
  function CondContinueLine(depth: nat): seq<string> {
    ["continue", if depth != 0 then " " + NatToString(depth + 1) else "", ";"]
  }

  /** Block::compileReturn: one assignment per return variable, pairing
      them with the stack variables in order. */
  method CompileReturn(src: Source, ret: ReturnMap, stack: seq<string>)
    requires src.Valid() && src.AtEnd()
    modifies src
    ensures src.Valid() && src.AtEnd() && src.indentation == old(src.indentation)
    ensures src.buffer == old(src.buffer) + ReturnText(old(src.indentation), ret, stack)
  {
    src.WriteEach(Assignments(ret, stack));
  }

  /** BranchUncond::compile: pop as many stack entries as the target block
      has results, assign them to its return variables, and leave. */
  method CompileBranchUncond(depth: nat, state: ExpressionCompiler, src: Source) returns (r: Result<()>)
    requires state.Valid() && src.Valid() && src.AtEnd()
    modifies state, src
    ensures state.Valid() && src.Valid() && src.AtEnd() && src.indentation == old(src.indentation)
    ensures state.chain == old(state.chain) && state.nameCnt == old(state.nameCnt)
    ensures r.Ok? <==> depth < |old(state.chain)|
    ensures r.Ok? ==> (
      var ret := old(state.chain)[depth];
      state.stack == Below(old(state.stack), |ret|) && state.names == Below(old(state.names), |ret|)
      && src.buffer == old(src.buffer)
         + ReturnText(old(src.indentation), ret, Top(old(state.names), |ret|))
         + Line(old(src.indentation), ContinueLine(depth)))
    ensures r.Err? ==> unchanged(state) && unchanged(src)
  {
    var ret := state.Return(depth);
    if ret.Err? {
      return Err(ret.error);
    }
    var stackVars := state.Pop(|ret.value|);
    CompileReturn(src, ret.value, stackVars);
    src.Write(ContinueLine(depth));
    r := Ok(());
  }

  /** BranchCond::compile: pop the condition, and inside `if (cond) { }`
      assign the stack top to the target's return variables without
      popping them, then leave. An empty stack gives an empty condition. */
  method CompileBranchCond(depth: nat, state: ExpressionCompiler, src: Source) returns (r: Result<()>)
    requires state.Valid() && src.Valid() && src.AtEnd()
    modifies state, src
    ensures state.Valid() && src.Valid() && src.AtEnd()
    ensures state.stack == Below(old(state.stack), 1) && state.names == Below(old(state.names), 1)
    ensures state.chain == old(state.chain) && state.nameCnt == old(state.nameCnt)
    ensures r.Ok? <==> depth < |old(state.chain)|
    ensures r.Ok? ==> src.indentation == old(src.indentation)
    ensures r.Ok? ==> (
      var cond := if |old(state.names)| > 0 then old(state.names)[|old(state.names)| - 1] else "";
      var ret := old(state.chain)[depth];
      var ind := old(src.indentation);
      src.buffer == old(src.buffer)
        + Line(ind, ["if (" + cond + ") {"])
        + ReturnText(ind + 1, ret, Top(state.names, |ret|))
        + Line(ind + 1, CondContinueLine(depth))
        + Line(ind, ["}"]))
  {
    var popped := state.Pop(1);
    var cond := if |popped| > 0 then popped[0] else "";
    src.Write(["if (" + cond + ") {"]);
    src.Indent(1);
    var ret := state.Return(depth);
    if ret.Err? {
      return Err(ret.error);
    }
    var stackVars := state.Peek(|ret.value|);
    CompileReturn(src, ret.value, stackVars);
    src.Write(CondContinueLine(depth));
    var _ := src.Outdent(1);
    src.Write(["}"]);
    r := Ok(());
  }

  /** LocalSet::compile: the local takes the type of the stack top, is
      assigned the top's variable, and the top is popped unless `retain`
      (local.tee). No type is checked. An empty stack passes null for the
      type, which the declared ValueType parameter refuses. */
  method CompileLocalSet(localIdx: nat, retain: bool, state: ExpressionCompiler, src: Source) returns (r: Result<()>)
    requires state.Valid() && src.Valid() && src.AtEnd()
    modifies state, src
    ensures state.Valid() && src.Valid() && src.AtEnd() && src.indentation == old(src.indentation)
    ensures state.chain == old(state.chain) && state.nameCnt == old(state.nameCnt)
    ensures r.Ok? <==> |old(state.stack)| > 0
    ensures r.Ok? ==> (
      var top := |old(state.stack)| - 1;
      state.locals == old(state.locals)[localIdx := old(state.stack)[top]]
      && src.buffer == old(src.buffer)
         + Line(old(src.indentation), [LocalName(localIdx) + " = " + old(state.names)[top] + ";"])
      && (retain ==> state.stack == old(state.stack) && state.names == old(state.names))
      && (!retain ==> state.stack == old(state.stack)[..top] && state.names == old(state.names)[..top]))
    ensures r.Err? ==> unchanged(state) && unchanged(src)
  {
    var types := state.Type(1);
    if |types| == 0 {
      return Err(TypeError("LocalSet: the type of an empty stack is null"));
    }
    var local := state.Set(localIdx, types[0]);
    var xs := state.Peek(1);
    src.Write([local + " = " + xs[0] + ";"]);
    if !retain {
      var _ := state.Pop(1);
    }
    r := Ok(());
  }

  /** The first position where two type lists of the same length differ. */
  function FirstMismatchPair(a: seq<ValueType>, b: seq<ValueType>): (r: Option<nat>)
    requires |a| == |b|
    ensures r.None? <==> forall k :: 0 <= k < |a| ==> a[k].code == b[k].code
    ensures r.Some? ==> r.value < |a| && a[r.value].code != b[r.value].code
    ensures r.Some? ==> forall k :: 0 <= k < r.value ==> a[k].code == b[k].code
  {
    if a == [] then None
    else if a[0].code != b[0].code then Some(0)
    else match FirstMismatchPair(a[1..], b[1..])
      case None => None
      case Some(k) => Some(k + 1)
  }

  /** The child context Block::createContext should build: the top |inputs|
      stack entries must have the input types, in order (the last input on
      top); they move to the child as its initial stack. */
  function ChildContext(stack: seq<ValueType>, names: seq<string>, inputs: seq<ValueType>)
    : (r: Result<(seq<string>, seq<ValueType>)>)
    requires |stack| == |names|
    ensures r.Ok? <==> (|inputs| <= |stack|
      && forall k :: 0 <= k < |inputs| ==> stack[|stack| - |inputs| + k].code == inputs[k].code)
    ensures r.Ok? ==> r.value == (names[|names| - |inputs|..], inputs)
    ensures r.Err? ==> r.error.InvalidArgumentException?
  {
    var n := |inputs|;
    if n > |stack| then Err(InvalidArgumentException("Stack underflow"))
    else match FirstMismatchPair(stack[|stack| - n..], inputs)
      case Some(k) => Err(InvalidArgumentException(MismatchMessage(1, stack[|stack| - n + k], inputs[k])))
      case None => Ok((names[|names| - n..], inputs))
  }

  /** Block::createContext as written: for each input in order it checks
      the current top against that input and pops one entry; each popped
      name array is unshifted with the input it was checked against, and
      `const` turns the array into the string "Array". */
  function ContextAsWritten(stack: seq<ValueType>, inputs: seq<ValueType>)
    : (r: Result<(seq<string>, seq<ValueType>)>)
    ensures r.Ok? ==> |r.value.0| == |inputs| && |r.value.1| == |inputs|
    ensures r.Ok? ==> forall k :: 0 <= k < |inputs| ==> r.value.0[k] == "Array"
  {
    if inputs == [] then Ok(([], []))
    else match FirstMismatch(Top(stack, 1), inputs[0])
      case Some(t) => Err(InvalidArgumentException(MismatchMessage(1, t, inputs[0])))
      case None =>
        match ContextAsWritten(Below(stack, 1), inputs[1..])
        case Err(e) => Err(e)
        case Ok(rest) => Ok((rest.0 + ["Array"], rest.1 + [inputs[0]]))
  }

  /** A block taking (i32, i64) with an i32 then an i64 on the stack: the
      code as written checks i32 against the i64 on top and throws; the
      corrected context accepts it, the child's entries named after the
      stack variables. */
  lemma ContextAsWrittenRejectsValid()
    ensures ContextAsWritten([ValueType(I32), ValueType(I64)], [ValueType(I32), ValueType(I64)]).Err?
    ensures ChildContext([ValueType(I32), ValueType(I64)], ["$stack_1", "$stack_2"], [ValueType(I32), ValueType(I64)])
            == Ok((["$stack_1", "$stack_2"], [ValueType(I32), ValueType(I64)]))
  {
    var s := [ValueType(I32), ValueType(I64)];
    assert Top(s, 1) == [ValueType(I64)];
    assert FirstMismatch(Top(s, 1), ValueType(I32)) == Some(ValueType(I64));
  }

  /** Even for a single input the child as written names its entry "Array"
      instead of the stack variable. */
  lemma ContextAsWrittenNamesArray()
    ensures ContextAsWritten([ValueType(I32)], [ValueType(I32)]) == Ok((["Array"], [ValueType(I32)]))
    ensures ChildContext([ValueType(I32)], ["$stack_1"], [ValueType(I32)]) == Ok((["$stack_1"], [ValueType(I32)]))
  {
    assert Top([ValueType(I32)], 1) == [ValueType(I32)];
    assert Below([ValueType(I32)], 1) == [];
    assert FirstMismatch([ValueType(I32)], ValueType(I32)) == None;
    assert [ValueType(I32)][1..] == [];
    assert [] + ["Array"] == ["Array"] && [] + [ValueType(I32)] == [ValueType(I32)];
  }

  /** The return map a block's outputs get: each fresh name with its type. */
  function Combine(ns: seq<string>, ts: seq<ValueType>): (ret: ReturnMap)
    requires |ns| == |ts|
    ensures |ret| == |ts| && forall k :: 0 <= k < |ts| ==> ret[k] == (ns[k], ts[k])
  {
    if ns == [] then [] else [(ns[0], ts[0])] + Combine(ns[1..], ts[1..])
  }

  /** A context inside `outer` whose stack starts with the given entries,
      pushed with `const` one by one. */
  method NewContext(ret: ReturnMap, outer: seq<ReturnMap>, names: seq<string>, types: seq<ValueType>)
    returns (state: ExpressionCompiler)
    requires |names| == |types|
    ensures fresh(state) && state.Valid() && state.names == names && state.stack == types
    ensures state.chain == [ret] + outer && state.nameCnt == 1 && state.locals == map[]
  {
    state := new ExpressionCompiler(ret, outer);
    var i := 0;
    while i < |names|
      invariant 0 <= i <= |names| && state.Valid() && fresh(state)
      invariant state.names == names[..i] && state.stack == types[..i]
      invariant state.chain == [ret] + outer && state.nameCnt == 1 && state.locals == map[]
    {
      assert names[..i + 1] == names[..i] + [names[i]];
      assert types[..i + 1] == types[..i] + [types[i]];
      state.Const(names[i], types[i]);
      i := i + 1;
    }
    assert names[..i] == names && types[..i] == types;
  }

  /** Block::createContext, corrected as ChildContext says: the inputs move
      from the parent to the child, and the parent gets one fresh variable
      per output, which the child's return map assigns. */
  method CreateContext(parent: ExpressionCompiler, signature: FuncType) returns (r: Result<ExpressionCompiler>)
    requires parent.Valid()
    modifies parent
    ensures parent.Valid() && parent.chain == old(parent.chain)
    ensures r.Ok? <==> ChildContext(old(parent.stack), old(parent.names), signature.input).Ok?
    ensures r.Err? ==> unchanged(parent)
    ensures r.Ok? ==> (
      var k := |old(parent.stack)| - |signature.input|;
      var outs := FreshNames(old(parent.nameCnt), |signature.output|);
      0 <= k <= |old(parent.stack)|
      && fresh(r.value) && r.value.Valid()
      && r.value.names == old(parent.names)[k..] && r.value.stack == signature.input
      && parent.stack == old(parent.stack)[..k] + signature.output
      && parent.names == old(parent.names)[..k] + outs
      && parent.nameCnt == old(parent.nameCnt) + |signature.output|
      && r.value.chain == [Combine(outs, signature.output)] + old(parent.chain))
  {
    var n := |signature.input|;
    var spec := ChildContext(parent.stack, parent.names, signature.input);
    if spec.Err? {
      return Err(spec.error);
    }
    var params: seq<string> := [];
    if n > 0 {
      params := parent.Pop(n);
    }
    var outs := parent.Push(signature.output);
    var state := NewContext(Combine(outs, signature.output), parent.chain, params, signature.input);
    r := Ok(state);
  }

  const NullSignature := "Argument #2 ($signature) must be of type FuncType, null given"

  /** The signature of a block: its own, or the module type it names.
      Without either, createContext receives null and PHP refuses it. */
  function BlockSignature(funcType: Option<FuncType>, typeIdx: Option<nat>, types: seq<FuncType>): (r: Result<FuncType>)
    ensures r.Ok? <==> funcType.Some? || (typeIdx.Some? && typeIdx.value < |types|)
    ensures funcType.Some? ==> r == Ok(funcType.value)
    ensures funcType.None? && r.Ok? ==> r.value == types[typeIdx.value]
    ensures r.Err? ==> r.error.TypeError?
  {
    match funcType
    case Some(ft) => Ok(ft)
    case None =>
      if typeIdx.Some? && typeIdx.value < |types| then Ok(types[typeIdx.value])
      else Err(TypeError(NullSignature))
  }

  function CodeTexts(ts: seq<ValueType>): (r: seq<string>)
    ensures |r| == |ts| && forall k :: 0 <= k < |ts| ==> r[k] == NatToString(ts[k].code)
  {
    if ts == [] then [] else [NatToString(ts[0].code)] + CodeTexts(ts[1..])
  }

  /** The signature in the block's opening comment: the input and output
      type codes. */
  function FuncTypeText(ft: FuncType): string {
    "(" + Join(", ", CodeTexts(ft.input)) + ") -> (" + Join(", ", CodeTexts(ft.output)) + ")"
  }

  /** The line that opens a block. */
  function BlockHeader(ft: FuncType): string {
    "do { // " + FuncTypeText(ft)
  }

  const FuncTypeNotString := "Object of class UnWasm\\Compiler\\Node\\Type\\FuncType could not be converted to string"

  /** The opening line of a block, as written: interpolating the FuncType
      object, which has no string conversion, raises an Error; a null
      signature interpolates as the empty string. */
  function BlockHeaderAsWritten(funcType: Option<FuncType>, typeIdx: Option<nat>, types: seq<FuncType>): (r: Result<string>)
    ensures r.Err? <==> BlockSignature(funcType, typeIdx, types).Ok?
  {
    match BlockSignature(funcType, typeIdx, types)
    case Ok(_) => Err(PhpError(FuncTypeNotString))
    case Err(_) => Ok("do { // ")
  }

  /** As written, no block compiles: it either has a signature, and its
      opening line raises the Error, or has none, and createContext then
      refuses the null. */
  lemma BlockAsWrittenNeverCompiles(funcType: Option<FuncType>, typeIdx: Option<nat>, types: seq<FuncType>)
    ensures BlockSignature(funcType, typeIdx, types).Ok? ==> BlockHeaderAsWritten(funcType, typeIdx, types).error.PhpError?
    ensures BlockHeaderAsWritten(funcType, typeIdx, types).Ok? ==> BlockSignature(funcType, typeIdx, types).error.TypeError?
  {
  }

  /** A string with no line end in it. */
  predicate NoEol(s: string) {
    forall k :: 0 <= k < |s| ==> s[k] != '\n'
  }

  lemma NoEolAppend(a: string, b: string)
    requires NoEol(a) && NoEol(b)
    ensures NoEol(a + b)
  {
    forall k | 0 <= k < |a + b|
      ensures (a + b)[k] != '\n'
    {
      if k >= |a| {
        assert (a + b)[k] == b[k - |a|];
      }
    }
  }

  lemma {:induction false} JoinNoEol(glue: string, parts: seq<string>)
    requires NoEol(glue) && forall k :: 0 <= k < |parts| ==> NoEol(parts[k])
    ensures NoEol(Join(glue, parts))
    decreases |parts|
  {
    if |parts| > 1 {
      JoinNoEol(glue, parts[1..]);
      assert NoEol(parts[0]);
      NoEolAppend(parts[0], glue);
      NoEolAppend(parts[0] + glue, Join(glue, parts[1..]));
    } else if |parts| == 1 {
      assert NoEol(parts[0]);
    }
  }

  lemma CodeTextsNoEol(ts: seq<ValueType>)
    ensures forall k :: 0 <= k < |ts| ==> NoEol(CodeTexts(ts)[k])
  {
    forall k | 0 <= k < |ts|
      ensures NoEol(CodeTexts(ts)[k])
    {
      var s := NatToString(ts[k].code);
      assert forall i :: 0 <= i < |s| ==> '0' <= s[i] <= '9';
    }
  }

  /** The corrected opening line is one line: the signature comment never
      contains a line end, so it cannot run into the block body. */
  lemma BlockHeaderOneLine(ft: FuncType)
    ensures NoEol(BlockHeader(ft))
  {
    CodeTextsNoEol(ft.input);
    CodeTextsNoEol(ft.output);
    JoinNoEol(", ", CodeTexts(ft.input));
    JoinNoEol(", ", CodeTexts(ft.output));
    var i := Join(", ", CodeTexts(ft.input));
    var o := Join(", ", CodeTexts(ft.output));
    NoEolAppend("do { // (", i);
    NoEolAppend("do { // (" + i, ") -> (");
    NoEolAppend("do { // (" + i + ") -> (", o);
    NoEolAppend("do { // (" + i + ") -> (" + o, ")");
  }

  /** The lines that close a block. */
  function BlockFooter(ind: nat): string {
    Line(ind, ["} while (0);"]) + EOL
  }

  /** Compiles one instruction. The nodes outside this model fail with
      OutsideModel; the others only ever append to the source and leave
      its indentation as they found it. */
  method CompileInstr(instr: Instr, state: ExpressionCompiler, src: Source, types: seq<FuncType>) returns (r: Result<()>)
    requires state.Valid() && src.Valid() && src.AtEnd()
    modifies state, src
    ensures state.Valid() && src.Valid() && src.AtEnd() && state.chain == old(state.chain)
    ensures r.Ok? ==> old(src.buffer) <= src.buffer && src.indentation == old(src.indentation)
    decreases instr, 3
  {
    if instr.Block? {
      ghost var inner, body, names;
      r, inner, body, names := CompileBlock(instr, state, src, types);
    } else if instr.BranchUncond? {
      r := CompileBranchUncond(instr.depth, state, src);
    } else if instr.BranchCond? {
      r := CompileBranchCond(instr.depth, state, src);
    } else if instr.LocalSet? {
      r := CompileLocalSet(instr.localIdx, instr.retain, state, src);
    } else {
      r := Err(OutsideModel("the compile method of this node"));
    }
  }

  /** Whether Block::compile writes the fall-through assignment: unless
      the last instruction already left the block (`end` of an empty body
      is false, which is no such instruction). */
  predicate FallsThrough(body: seq<Instr>) {
    |body| == 0 || !EndsFlow(body[|body| - 1])
  }

  /** The fall-through text: the top entries of the context's stack, as
      many as the block has results, assigned to its return variables. */
  function FallThroughText(body: seq<Instr>, ind: nat, ret: ReturnMap, names: seq<string>): string {
    if FallsThrough(body) then ReturnText(ind, ret, Top(names, |ret|)) else ""
  }

  /** The body of Block::compile inside its context: each instruction in
      turn, which leaves the text `mid` and the stack names `midNames`,
      then the fall-through assignment of the block's results unless the
      last instruction already left the block. */
  method CompileBody(b: Instr, state: ExpressionCompiler, src: Source, types: seq<FuncType>)
    returns (r: Result<()>, ghost mid: string, ghost midNames: seq<string>)
    requires b.Block? && |state.chain| > 0
    requires state.Valid() && src.Valid() && src.AtEnd()
    modifies state, src
    ensures state.Valid() && src.Valid() && src.AtEnd() && state.chain == old(state.chain)
    ensures r.Ok? ==> old(src.buffer) <= mid && src.indentation == old(src.indentation)
    ensures r.Ok? ==> src.buffer == mid + FallThroughText(b.body, old(src.indentation), old(state.chain)[0], midNames)
    ensures r.Ok? && |b.body| == 0 ==> mid == old(src.buffer) && midNames == old(state.names)
    decreases b, 0
  {
    var i := 0;
    while i < |b.body|
      invariant 0 <= i <= |b.body|
      invariant state.Valid() && src.Valid() && src.AtEnd() && state.chain == old(state.chain)
      invariant old(src.buffer) <= src.buffer && src.indentation == old(src.indentation)
      invariant |b.body| == 0 ==> src.buffer == old(src.buffer) && state.names == old(state.names)
    {
      assert b.body[i] in b.body;
      var step := CompileInstr(b.body[i], state, src, types);
      if step.Err? {
        return Err(step.error), src.buffer, state.names;
      }
      i := i + 1;
    }
    mid, midNames := src.buffer, state.names;
    if |b.body| == 0 || !EndsFlow(b.body[|b.body| - 1]) {
      var ret := state.Return(0);
      var stackVars := state.Pop(|ret.value|);
      CompileReturn(src, ret.value, stackVars);
    }
    r := Ok(());
  }

  /** The start of Block::compile: the opening line, one level in, and
      the child context. */
  method OpenBlock(ft: FuncType, outer: ExpressionCompiler, src: Source) returns (r: Result<ExpressionCompiler>)
    requires outer.Valid() && src.Valid() && src.AtEnd()
    modifies outer, src
    ensures outer.Valid() && src.Valid() && src.AtEnd() && outer.chain == old(outer.chain)
    ensures src.indentation == old(src.indentation) + 1
    ensures src.buffer == old(src.buffer) + Line(old(src.indentation), [BlockHeader(ft)])
    ensures r.Ok? <==> ChildContext(old(outer.stack), old(outer.names), ft.input).Ok?
    ensures r.Ok? ==> (
      var k := |old(outer.stack)| - |ft.input|;
      var outs := FreshNames(old(outer.nameCnt), |ft.output|);
      0 <= k <= |old(outer.stack)|
      && fresh(r.value) && r.value.Valid() && |r.value.chain| > 0
      && r.value.names == old(outer.names)[k..] && r.value.chain[0] == Combine(outs, ft.output)
      && outer.stack == old(outer.stack)[..k] + ft.output
      && outer.names == old(outer.names)[..k] + outs)
  {
    src.Write([BlockHeader(ft)]);
    src.Indent(1);
    r := CreateContext(outer, ft);
  }

  /** The end of Block::compile: one level out, the closing line and an
      empty line. */
  method CloseBlock(src: Source)
    requires src.Valid() && src.AtEnd() && src.indentation >= 1
    modifies src
    ensures src.Valid() && src.AtEnd() && src.indentation == old(src.indentation) - 1
    ensures src.buffer == old(src.buffer) + BlockFooter(src.indentation)
  {
    var _ := src.Outdent(1);
    src.Write(["} while (0);"]);
    src.Write([]);
  }

  /** The part of Block::compile inside the context: the body, then the
      closing lines one level out. */
  method BlockInside(b: Instr, state: ExpressionCompiler, src: Source, types: seq<FuncType>)
    returns (r: Result<()>, ghost inner: string, ghost body: string, ghost names: seq<string>)
    requires b.Block? && |state.chain| > 0
    requires state.Valid() && src.Valid() && src.AtEnd() && src.indentation >= 1
    modifies state, src
    ensures src.Valid() && src.AtEnd()
    ensures r.Ok? ==> (
      var ind := old(src.indentation) - 1;
      src.indentation == ind
      && src.buffer == old(src.buffer) + inner + BlockFooter(ind)
      && inner == body + FallThroughText(b.body, ind + 1, old(state.chain)[0], names)
      && (|b.body| == 0 ==> body == "" && names == old(state.names)))
    decreases b, 1
  {
    ghost var head := src.buffer;
    ghost var mid;
    var done;
    done, mid, names := CompileBody(b, state, src, types);
    if done.Err? {
      return Err(done.error), "", "", [];
    }
    inner := src.buffer[|head|..];
    body := mid[|head|..];
    assert src.buffer == head + inner;
    assert mid == head + body;
    CloseBlock(src);
    r := Ok(());
  }

  /** Block::compile, with the opening comment and the context corrected:
      the header line, the body one level further in, then the closing
      lines. The body is the instructions' text `body` and the
      fall-through assignment from the names `names` they leave on the
      child's stack to the block's output variables; an empty body leaves
      the moved inputs there. The parent's stack loses the inputs and
      gains one fresh variable per output. */
  method CompileBlock(b: Instr, outer: ExpressionCompiler, src: Source, types: seq<FuncType>)
    returns (r: Result<()>, ghost inner: string, ghost body: string, ghost names: seq<string>)
    requires b.Block?
    requires outer.Valid() && src.Valid() && src.AtEnd()
    modifies outer, src
    ensures outer.Valid() && src.Valid() && src.AtEnd() && outer.chain == old(outer.chain)
    ensures BlockSignature(b.funcType, b.typeIdx, types).Err? ==> r.Err?
    ensures r.Ok? ==> (
      var ft := BlockSignature(b.funcType, b.typeIdx, types).value;
      var ind := old(src.indentation);
      var k := |old(outer.stack)| - |ft.input|;
      ChildContext(old(outer.stack), old(outer.names), ft.input).Ok?
      && 0 <= k <= |old(outer.stack)|
      && src.indentation == ind
      && src.buffer == old(src.buffer) + Line(ind, [BlockHeader(ft)]) + inner + BlockFooter(ind)
      && inner == body + FallThroughText(b.body, ind + 1, Combine(FreshNames(old(outer.nameCnt), |ft.output|), ft.output), names)
      && (|b.body| == 0 ==> body == "" && names == old(outer.names)[k..])
      && outer.stack == old(outer.stack)[..k] + ft.output
      && outer.names == old(outer.names)[..k] + FreshNames(old(outer.nameCnt), |ft.output|))
    decreases b, 2
  {
    var sig := BlockSignature(b.funcType, b.typeIdx, types);
    if sig.Err? {
      return Err(sig.error), "", "", [];
    }
    var res := OpenBlock(sig.value, outer, src);
    if res.Err? {
      return Err(res.error), "", "", [];
    }
    r, inner, body, names := BlockInside(b, res.value, src, types);
  }

  /** The fall-through of an empty block copies the inputs it moved into
      the child to the output variables: output j gets input
      |ins| - |outs| + j when there are at least as many inputs, and
      otherwise input j, or null past the last input (pop takes the whole
      stack when asked for more than it holds). */
  lemma EmptyBlockAssigns(ins: seq<string>, outs: seq<string>, ts: seq<ValueType>, j: nat)
    requires |outs| == |ts| && j < |ts|
    ensures Assignments(Combine(outs, ts), Top(ins, |ts|))[j]
         == [outs[j] + " = " + (if |ts| <= |ins| then ins[|ins| - |ts| + j] else if j < |ins| then ins[j] else "") + ";"]
  {
    AssignmentAt(Combine(outs, ts), Top(ins, |ts|), j);
    if |ts| > |ins| {
      TopAll(ins, |ts|);
    }
  }
}

/** The type section and the type decoders the other builders share
    (src/Compiler/Binary/TypesBuilder.php): function types, result types,
    limits, and table, memory and global types. Each decoder is a function
    of the stream, and the section scan is proved to store what they
    decode. */
module TypesBuilder {
  import opened Exceptions
  import opened Token
  import opened Stream
  import opened NodeType
  import opened Parser
  import opened Compiler

  /** The type section has id 1. */
  predicate Supported(sectionId: int) {
    sectionId == 1
  }

  /** One entry of a result type: a value type byte, not checked. */
  function ValueTypeElem(x: (), c: Cursor, i: nat): (r: Result<Parsed<ValueType>>)
    ensures r == Ok(Parsed(ValueType(NextByte(c)), ReadN(c, 1).next))
  {
    match Stream.ExpectByte(c, 0, 0)
    case Ok(b) => Ok(Parsed(ValueType(b.v), b.next))
    case Err(e) => Err(e)
  }

  lemma ValueTypeReadsForward()
    ensures ReadsForward((), ValueTypeElem)
  {
    forall c: Cursor, i: nat
      ensures ValueTypeElem((), c, i).Ok? ==> Advanced(c, ValueTypeElem((), c, i).value.next)
    {
      ReadNAdvances(c, 1);
    }
  }

  /** TypesBuilder::resulttype: a vector of value types. */
  function ResultType(c: Cursor): Result<Parsed<seq<ValueType>>> {
    Vector((), c, ValueTypeElem)
  }

  lemma ResultTypeAdvances(c: Cursor)
    ensures ResultType(c).Ok? ==> Advanced(c, ResultType(c).value.next)
  {
    ValueTypeReadsForward();
    VectorAdvances((), c, ValueTypeElem);
  }

  /** TypesBuilder::functype: the byte 0x60, the inputs, the outputs. */
  function FuncTypeOf(c: Cursor): (r: Result<Parsed<FuncType>>)
    ensures NextByte(c) != 0x60 ==> r == Err(RuntimeException("Invalid value"))
  {
    var magic :- Stream.ExpectByte(c, 0x60, 0);
    var input :- ResultType(magic.next);
    var output :- ResultType(input.next);
    Ok(Parsed(FuncType(input.v, output.v), output.next))
  }

  lemma FuncTypeAdvances(c: Cursor)
    ensures FuncTypeOf(c).Ok? ==> Advanced(c, FuncTypeOf(c).value.next)
  {
    var magic := Stream.ExpectByte(c, 0x60, 0);
    if magic.Ok? {
      ExpectByteAdvances(c, 0x60, 0);
      ResultTypeAdvances(magic.value.next);
      var input := ResultType(magic.value.next);
      if input.Ok? {
        ResultTypeAdvances(input.value.next);
      }
    }
  }

  /** The element function of the type section's vector. */
  function FuncTypeElem(x: (), c: Cursor, i: nat): Result<Parsed<FuncType>> {
    FuncTypeOf(c)
  }

  lemma FuncTypeReadsForward()
    ensures ReadsForward((), FuncTypeElem)
  {
    forall c: Cursor, i: nat
      ensures FuncTypeElem((), c, i).Ok? ==> Advanced(c, FuncTypeElem((), c, i).value.next)
    {
      FuncTypeAdvances(c);
    }
  }

  /** The codes of a list of value types, one byte each. */
  function Codes(ts: seq<ValueType>): (r: seq<byte>)
    ensures |r| == |ts| && forall k :: 0 <= k < |ts| ==> r[k] == ts[k].code
  {
    if ts == [] then [] else [ts[0].code] + Codes(ts[1..])
  }

  /** The value types i.. of a vector read back from their codes. */
  lemma {:induction false} ValueTypesFrom(c: Cursor, ts: seq<ValueType>, i: nat)
    requires i <= |ts| && HoldsAt(c, Codes(ts[i..]))
    ensures VectorFrom((), c, ValueTypeElem, i, |ts|, ts[..i]) == Ok(Parsed(ts, Ahead(c, |ts| - i)))
    decreases |ts| - i
  {
    if i < |ts| {
      assert Codes(ts[i..]) == [ts[i].code] + Codes(ts[i + 1..]) by {
        assert ts[i..][1..] == ts[i + 1..];
      }
      HoldsAtSplit(c, [ts[i].code], Codes(ts[i + 1..]));
      ReadHeld(c, ts[i].code);
      assert ts[..i] + [ts[i]] == ts[..i + 1];
      ValueTypesFrom(Ahead(c, 1), ts, i + 1);
      AheadAhead(c, 1, |ts| - (i + 1));
    } else {
      assert ts[..i] == ts;
    }
  }

  /** The stream holds a result type at the cursor: a count of the value
      types, in any LEB128 form a 32-bit read accepts, then their codes. */
  predicate ResultTypeHeld(c: Cursor, count: seq<byte>, ts: seq<ValueType>) {
    U32Encoding(count, |ts|) && HoldsAt(c, count) && HoldsAt(Ahead(c, |count|), Codes(ts))
  }

  /** The cursor just after such a result type. */
  function ResultTypeEnd(c: Cursor, count: seq<byte>, ts: seq<ValueType>): Cursor {
    Ahead(Ahead(c, |count|), |ts|)
  }

  /** A result type is read back from its encoding. */
  lemma ResultTypeRoundTrip(c: Cursor, count: seq<byte>, ts: seq<ValueType>)
    requires ResultTypeHeld(c, count, ts)
    ensures ResultType(c) == Ok(Parsed(ts, ResultTypeEnd(c, count, ts)))
  {
    ExpectU32Held(c, count, |ts|);
    assert ts[0..] == ts && ts[..0] == [];
    ValueTypesFrom(Ahead(c, |count|), ts, 0);
  }

  /** The function type is the magic byte and the two result types, each
      as the stream yields it. */
  lemma FuncTypeParts(c: Cursor, ft: FuncType, c1: Cursor, c2: Cursor, c3: Cursor)
    requires Stream.ExpectByte(c, 0x60, 0) == Ok(Parsed(0x60, c1))
    requires ResultType(c1) == Ok(Parsed(ft.input, c2))
    requires ResultType(c2) == Ok(Parsed(ft.output, c3))
    ensures FuncTypeOf(c) == Ok(Parsed(ft, c3))
  {
  }

  /** A function type is read back from its encoding, the byte 0x60 and the
      two result types: the decoder inverts the binary format. */
  lemma FuncTypeRoundTrip(c: Cursor, ft: FuncType, inCount: seq<byte>, outCount: seq<byte>)
    requires HoldsAt(c, [0x60]) && ResultTypeHeld(Ahead(c, 1), inCount, ft.input)
    requires ResultTypeHeld(ResultTypeEnd(Ahead(c, 1), inCount, ft.input), outCount, ft.output)
    ensures FuncTypeOf(c) == Ok(Parsed(ft, ResultTypeEnd(ResultTypeEnd(Ahead(c, 1), inCount, ft.input), outCount, ft.output)))
  {
    var c1 := Ahead(c, 1);
    var c2 := ResultTypeEnd(c1, inCount, ft.input);
    ExpectByteHeld(c, 0x60, 0x60, 0);
    ResultTypeRoundTrip(c1, inCount, ft.input);
    ResultTypeRoundTrip(c2, outCount, ft.output);
    FuncTypeParts(c, ft, c1, c2, ResultTypeEnd(c2, outCount, ft.output));
  }

  /** TypesBuilder::limits: a flag byte of at most 1, the minimum, and the
      maximum only when the flag is 1. */
  function LimitsOf(c: Cursor): (r: Result<Parsed<Limits>>)
    ensures r.Ok? ==> NextByte(c) <= 1 && (r.value.v.maximum.Some? <==> NextByte(c) == 1)
    ensures NextByte(c) > 1 ==> r == Err(RuntimeException("Invalid value"))
    ensures r.Err? ==> r.error.RuntimeException?
  {
    var flag :- Stream.ExpectByte(c, 0, 1);
    var minimum :- Stream.ExpectInt(flag.next, true, 32);
    if flag.v == 1 then
      var maximum :- Stream.ExpectInt(minimum.next, true, 32);
      Ok(Parsed(Limits(minimum.v, Some(maximum.v)), maximum.next))
    else
      Ok(Parsed(Limits(minimum.v, None), minimum.next))
  }

  /** The limits are the flag, the minimum and, with flag 1, the maximum,
      each as the stream yields it. */
  lemma LimitsParts(c: Cursor, flag: byte, minimum: nat, maximum: Option<nat>, c1: Cursor, c2: Cursor, c3: Cursor)
    requires Stream.ExpectByte(c, 0, 1) == Ok(Parsed(flag, c1))
    requires Stream.ExpectInt(c1, true, 32) == Ok(Parsed(minimum as int, c2))
    requires flag == 0 ==> maximum == None && c3 == c2
    requires flag == 1 ==> maximum.Some? && Stream.ExpectInt(c2, true, 32) == Ok(Parsed(maximum.value as int, c3))
    ensures LimitsOf(c) == Ok(Parsed(Limits(minimum, maximum), c3))
  {
  }

  /** With flag 0 the limits take the minimum and nothing after it. */
  lemma LimitsWithoutMaximum(c: Cursor, minimum: nat, enc: seq<byte>)
    requires HoldsAt(c, [0]) && U32Encoding(enc, minimum) && HoldsAt(Ahead(c, 1), enc)
    ensures LimitsOf(c) == Ok(Parsed(Limits(minimum, None), Ahead(Ahead(c, 1), |enc|)))
  {
    ExpectByteHeld(c, 0, 0, 1);
    ExpectU32Held(Ahead(c, 1), enc, minimum);
    LimitsParts(c, 0, minimum, None, Ahead(c, 1), Ahead(Ahead(c, 1), |enc|), Ahead(Ahead(c, 1), |enc|));
  }

  /** With flag 1 the limits take the minimum and then the maximum. */
  lemma LimitsWithMaximum(c: Cursor, minimum: nat, maximum: nat, encMin: seq<byte>, encMax: seq<byte>)
    requires U32Encoding(encMin, minimum) && U32Encoding(encMax, maximum)
    requires HoldsAt(c, [1]) && HoldsAt(Ahead(c, 1), encMin) && HoldsAt(Ahead(Ahead(c, 1), |encMin|), encMax)
    ensures LimitsOf(c) == Ok(Parsed(Limits(minimum, Some(maximum)), Ahead(Ahead(Ahead(c, 1), |encMin|), |encMax|)))
  {
    var c1 := Ahead(c, 1);
    var c2 := Ahead(c1, |encMin|);
    ExpectByteHeld(c, 1, 0, 1);
    ExpectU32Held(c1, encMin, minimum);
    ExpectU32Held(c2, encMax, maximum);
    LimitsParts(c, 1, minimum, Some(maximum), c1, c2, Ahead(c2, |encMax|));
  }

  lemma LimitsAdvances(c: Cursor)
    ensures LimitsOf(c).Ok? ==> Advanced(c, LimitsOf(c).value.next)
  {
    var flag := Stream.ExpectByte(c, 0, 1);
    if flag.Ok? {
      ExpectByteAdvances(c, 0, 1);
      ExpectIntDecodes(flag.value.next, true, Width(32));
      var minimum := Stream.ExpectInt(flag.value.next, true, 32);
      if minimum.Ok? {
        ExpectIntDecodes(minimum.value.next, true, Width(32));
      }
    }
  }

  /** TypesBuilder::tabletype: a reference type byte, then the limits. */
  function TableTypeOf(c: Cursor): (r: Result<Parsed<TableType>>)
    ensures r.Ok? ==>
              r.value.v.refType == RefType(NextByte(c))
              && LimitsOf(ReadN(c, 1).next) == Ok(Parsed(r.value.v.limits, r.value.next))
    ensures r.Err? ==> r.error.RuntimeException?
  {
    match Stream.ExpectByte(c, 0, 0)
    case Err(e) => Err(e)
    case Ok(t) =>
      var limits :- LimitsOf(t.next);
      Ok(Parsed(TableType(RefType(t.v), limits.v), limits.next))
  }

  lemma TableTypeAdvances(c: Cursor)
    ensures TableTypeOf(c).Ok? ==> Advanced(c, TableTypeOf(c).value.next)
  {
    ReadNAdvances(c, 1);
    LimitsAdvances(ReadN(c, 1).next);
  }

  /** TypesBuilder::memtype: the limits alone. */
  function MemTypeOf(c: Cursor): (r: Result<Parsed<MemType>>)
    ensures r.Ok? <==> LimitsOf(c).Ok?
    ensures r.Ok? ==> r.value == Parsed(MemType(LimitsOf(c).value.v), LimitsOf(c).value.next)
  {
    var limits :- LimitsOf(c);
    Ok(Parsed(MemType(limits.v), limits.next))
  }

  /** TypesBuilder::globaltype: a value type byte, then a mutability byte
      of at most 1; the global is mutable exactly when it is 1. */
  function GlobalTypeOf(c: Cursor): (r: Result<Parsed<GlobalType>>)
    ensures var c1 := ReadN(c, 1).next;
      (r.Ok? <==> NextByte(c1) <= 1)
      && (r.Ok? ==> r.value == Parsed(GlobalType(ValueType(NextByte(c)), NextByte(c1) == 1), ReadN(c1, 1).next))
    ensures r.Err? ==> r.error == RuntimeException("Invalid value")
  {
    match Stream.ExpectByte(c, 0, 0)
    case Err(e) => Err(e)
    case Ok(t) =>
      var mut :- Stream.ExpectByte(t.next, 0, 1);
      Ok(Parsed(GlobalType(ValueType(t.v), mut.v == 1), mut.next))
  }

  lemma GlobalTypeAdvances(c: Cursor)
    ensures GlobalTypeOf(c).Ok? ==> Advanced(c, GlobalTypeOf(c).value.next)
  {
    ReadNAdvances(c, 1);
    ReadNAdvances(ReadN(c, 1).next, 1);
  }

  /** TypesBuilder::scan: the section is a vector of function types, which
      become the module's types. An error leaves them as they were. */
  method Scan(parser: BinaryParser, compiler: ModuleCompiler) returns (r: Result<()>)
    modifies parser, compiler
    ensures var spec := Vector((), old(parser.At()), FuncTypeElem);
      (spec.Ok? ==> r == Ok(()) && compiler.types == spec.value.v && parser.At() == spec.value.next)
      && (spec.Err? ==> r == Err(spec.error) && compiler.types == old(compiler.types))
    ensures compiler.imports == old(compiler.imports) && compiler.funcs == old(compiler.funcs)
    ensures compiler.exports == old(compiler.exports) && compiler.elems == old(compiler.elems)
    ensures compiler.start == old(compiler.start)
  {
    FuncTypeReadsForward();
    var types := parser.ExpectVector((), FuncTypeElem);
    if types.Err? {
      return Err(types.error);
    }
    compiler.types := types.value;
    r := Ok(());
  }
}

/** The type descriptors of the compiler (src/Compiler/Node/Type): value
    types, function signatures and their parameter naming, limits with
    `inRange`, and the table, memory and global types built from them. */
module NodeType {
  import opened Exceptions
  import opened Text
  import opened Token

  /** A value type, identified by its type byte as in the binary format. */
  datatype ValueType = ValueType(code: byte)

  /** A reference type (`funcref`, `externref`), identified by its byte. */
  datatype RefType = RefType(code: byte)

  /** The value type codes the compiler names I32, I64, F32 and F64. */
  const I32: byte := 0x7F
  const I64: byte := 0x7E
  const F32: byte := 0x7D
  const F64: byte := 0x7C

  /** The byte codes of the value types of the binary format: the numeric
      types, the vector type and the two reference types. */
  predicate IsValueTypeCode(b: byte) {
    b in {0x7F, 0x7E, 0x7D, 0x7C, 0x7B, 0x70, 0x6F}
  }

  datatype FuncType = FuncType(input: seq<ValueType>, output: seq<ValueType>)

  /** Limits of a table or memory: a minimum and an optional maximum. */
  datatype Limits = Limits(minimum: nat, maximum: Option<nat>)

  datatype TableType = TableType(refType: RefType, limits: Limits)

  datatype MemType = MemType(limits: Limits)

  datatype GlobalType = GlobalType(valueType: ValueType, mutable: bool)

  /** `!$this->maximum`: PHP treats both null and 0 as false. */
  predicate NoMaximum(l: Limits) {
    l.maximum == None || l.maximum == Some(0)
  }

  /** Limits::inRange */
  predicate InRange(l: Limits, k: int) {
    l.minimum <= k && (NoMaximum(l) || k <= l.maximum.value)
  }

  /** inRange accepts exactly the values between the minimum and the
      maximum, with no upper bound when the maximum is null or 0. */
  lemma InRangeIff(l: Limits, k: int)
    ensures InRange(l, k) <==> (l.minimum <= k && (l.maximum.Some? && l.maximum.value != 0 ==> k <= l.maximum.value))
  {
  }

  /** A maximum of 0 bounds nothing: every value above the minimum is in range. */
  lemma ZeroMaximumUnbounded(minimum: nat, k: int)
    requires minimum <= k
    ensures InRange(Limits(minimum, Some(0)), k)
  {
  }

  /** The name FuncType gives parameter or result i: `$` + prefix + i. */
  function ParamName(prefix: string, i: nat): (r: string) {
    "$" + prefix + NatToString(i)
  }

  /** Different indices give different names under one prefix. */
  lemma ParamNamesDiffer(prefix: string, i: nat, j: nat)
    requires i != j
    ensures ParamName(prefix, i) != ParamName(prefix, j)
  {
    if ParamName(prefix, i) == ParamName(prefix, j) {
      assert ("$" + prefix) + NatToString(i) == ParamName(prefix, i);
      assert ("$" + prefix) + NatToString(j) == ParamName(prefix, j);
      PrefixedNatInjective("$" + prefix, i, j);
    }
  }

  /** The type hint compileInput puts before a typed parameter. */
  function TypeHint(t: ValueType): (r: string) {
    if t.code in {INT_TYPE, INT_64_TYPE, UINT_TYPE, UINT_64_TYPE, BYTE_TYPE} then "int "
    else if t.code in {FLOAT_TYPE, FLOAT_64_TYPE} then "float "
    else ""
  }

  /** FuncType::compileOutput: one name per result, in order. */
  function CompileOutput(ft: FuncType, prefix: string): (names: seq<string>)
    ensures |names| == |ft.output|
    ensures forall i :: 0 <= i < |names| ==> names[i] == ParamName(prefix, i)
  {
    seq(|ft.output|, i requires 0 <= i < |ft.output| => ParamName(prefix, i))
  }

  /** FuncType::compileInput: one name per parameter, in order, with the
      type hint of the parameter in front when typed. */
  function CompileInput(ft: FuncType, prefix: string, typed: bool): (names: seq<string>)
    ensures |names| == |ft.input|
  {
    seq(|ft.input|, i requires 0 <= i < |ft.input| =>
      (if typed then TypeHint(ft.input[i]) else "") + ParamName(prefix, i))
  }

  /** Untyped parameter names are the bare names; typed ones add the hint
      chosen by the type code: `int ` for integer and byte codes, `float `
      for float codes, nothing otherwise. */
  lemma CompileInputNames(ft: FuncType, prefix: string, i: nat)
    requires i < |ft.input|
    ensures CompileInput(ft, prefix, false)[i] == ParamName(prefix, i)
    ensures CompileInput(ft, prefix, true)[i] == TypeHint(ft.input[i]) + ParamName(prefix, i)
    ensures ft.input[i].code in {0x7F, 0x7E, 6, 7, 0} ==> CompileInput(ft, prefix, true)[i] == "int " + ParamName(prefix, i)
    ensures ft.input[i].code in {0x7D, 0x7C} ==> CompileInput(ft, prefix, true)[i] == "float " + ParamName(prefix, i)
    ensures ft.input[i].code !in {0x7F, 0x7E, 6, 7, 0, 0x7D, 0x7C} ==> CompileInput(ft, prefix, true)[i] == ParamName(prefix, i)
  {
    assert "" + ParamName(prefix, i) == ParamName(prefix, i);
  }

  /** The names of the parameters are pairwise distinct, typed or not. */
  lemma CompileInputDistinct(ft: FuncType, prefix: string, typed: bool, i: nat, j: nat)
    requires i < |ft.input| && j < |ft.input| && i != j
    ensures CompileInput(ft, prefix, typed)[i] != CompileInput(ft, prefix, typed)[j]
  {
    var hi := if typed then TypeHint(ft.input[i]) else "";
    var hj := if typed then TypeHint(ft.input[j]) else "";
    assert CompileInput(ft, prefix, typed)[i] == hi + ParamName(prefix, i);
    assert CompileInput(ft, prefix, typed)[j] == hj + ParamName(prefix, j);
    HintedNamesDiffer(hi, hj, prefix, i, j);
  }

  /** A hint from {"", "int ", "float "} followed by a parameter name
      determines the index: the hints contain no `$`, so the `$` of the
      name lines up, and the digits after the prefix give the index. */
  lemma HintedNamesDiffer(hi: string, hj: string, prefix: string, i: nat, j: nat)
    requires hi in {"", "int ", "float "} && hj in {"", "int ", "float "}
    requires i != j
    ensures hi + ParamName(prefix, i) != hj + ParamName(prefix, j)
  {
    var a, b := hi + ParamName(prefix, i), hj + ParamName(prefix, j);
    DollarAfterHint(hi, prefix, i);
    DollarAfterHint(hj, prefix, j);
    if a == b && |hi| == |hj| {
      assert a[|hi|..] == ParamName(prefix, i);
      assert b[|hj|..] == ParamName(prefix, j);
      ParamNamesDiffer(prefix, i, j);
    }
  }

  /** The `$` of a parameter name sits right after its hint. */
  lemma DollarAfterHint(h: string, prefix: string, i: nat)
    ensures (h + ParamName(prefix, i))[|h|] == '$'
  {
  }
}

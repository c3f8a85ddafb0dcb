/** The compile-time operand stack (src/Compiler/ExpressionCompiler.php):
    the names of the PHP variables holding the stack values and their value
    types, kept as two parallel lists, the types of the locals, and a
    counter for fresh `$stack_N` names.

    Extension: the control nodes ask a context for `return(depth)`, the
    variables that receive the results of the block `depth` levels out;
    the class as shown has no such member. Here each context holds that
    chain as a list of return maps, its own first, then its parent's. */
module Stack {
  import opened Exceptions
  import opened Text
  import opened NodeType

  /** The result variables of a block and their types, in order. */
  type ReturnMap = seq<(string, ValueType)>

  /** The fresh name the counter value k gives. */
  function StackName(k: nat): string {
    "$stack_" + NatToString(k)
  }

  /** The n names the counter gives from `start` on, in order. */
  function FreshNames(start: nat, n: nat): (r: seq<string>)
    ensures |r| == n && forall j :: 0 <= j < n ==> r[j] == StackName(start + j)
  {
    seq(n, (j: int) requires 0 <= j => StackName(start + j))
  }

  /** The name a local is read and written through. */
  function LocalName(i: nat): string {
    "$local_" + NatToString(i)
  }

  /** Different counter values give different names. */
  lemma StackNamesDiffer(a: nat, b: nat)
    requires a != b
    ensures StackName(a) != StackName(b)
  {
    if StackName(a) == StackName(b) {
      PrefixedNatInjective("$stack_", a, b);
    }
  }

  /** Where `array_splice($a, -$cnt)` and `array_slice($a, -$cnt)` start
      on a list of n entries: n - cnt, clamped at 0; `-0` is offset 0, so a
      count of 0 reaches the whole list. */
  function SuffixStart(n: nat, cnt: nat): (k: nat)
    ensures k <= n
  {
    if cnt == 0 || cnt >= n then 0 else n - cnt
  }

  /** The top `cnt` entries, as pop, peek and type see them. */
  function Top<T>(s: seq<T>, cnt: nat): (r: seq<T>)
    ensures 0 < cnt <= |s| ==> |r| == cnt
    ensures r == s[SuffixStart(|s|, cnt)..]
  {
    s[SuffixStart(|s|, cnt)..]
  }

  /** What pop leaves below the popped entries. */
  function Below<T>(s: seq<T>, cnt: nat): (r: seq<T>)
    ensures Below(s, cnt) + Top(s, cnt) == s
    ensures 0 < cnt <= |s| ==> |r| == |s| - cnt
  {
    s[..SuffixStart(|s|, cnt)]
  }

  /** A count of 0, or one above the stack height, takes every entry. */
  lemma TopAll<T>(s: seq<T>, cnt: nat)
    requires cnt == 0 || cnt >= |s|
    ensures Top(s, cnt) == s && Below(s, cnt) == []
  {
  }

  /** The first type among `types` that differs from `t`, if any, in order. */
  function FirstMismatch(types: seq<ValueType>, t: ValueType): (r: Option<ValueType>)
    ensures r.None? <==> forall k :: 0 <= k < |types| ==> types[k].code == t.code
    ensures r.Some? ==> r.value in types && r.value.code != t.code
  {
    if types == [] then None
    else if types[0].code != t.code then Some(types[0])
    else FirstMismatch(types[1..], t)
  }

  /** The message of `typed`'s exception. */
  function MismatchMessage(cnt: nat, found: ValueType, expected: ValueType): string {
    "Types (" + NatToString(cnt) + ") mismatch: " + NatToString(found.code) + " vs " + NatToString(expected.code)
  }

  class ExpressionCompiler {
    var stack: seq<ValueType>
    var names: seq<string>
    var nameCnt: nat
    var locals: map<nat, ValueType>
    /** return(0), return(1), ...: the chain of enclosing return maps */
    var chain: seq<ReturnMap>

    /** The names and the types always have the same length; the counter
        starts at 1 and only counts up. */
    ghost predicate Valid()
      reads this
    {
      |names| == |stack| && nameCnt >= 1
    }

    /** A context whose own return map is `ret`, inside the given chain. */
    constructor(ret: ReturnMap, outer: seq<ReturnMap>)
      ensures Valid() && stack == [] && names == [] && nameCnt == 1 && locals == map[]
      ensures chain == [ret] + outer
    {
      stack := [];
      names := [];
      nameCnt := 1;
      locals := map[];
      chain := [ret] + outer;
    }

    /** ExpressionCompiler::get: pushes the local's variable with the type
        recorded for it. A local with no recorded type is outside the
        model (PHP warns and pushes null). */
    method Get(local: nat) returns (r: Result<()>)
      requires Valid()
      modifies this
      ensures Valid() && nameCnt == old(nameCnt) && locals == old(locals) && chain == old(chain)
      ensures r.Ok? <==> local in old(locals)
      ensures r.Ok? ==> names == old(names) + [LocalName(local)] && stack == old(stack) + [old(locals)[local]]
      ensures r.Err? ==> names == old(names) && stack == old(stack)
    {
      if local !in locals {
        return Err(OutsideModel("the type of a local that was never set"));
      }
      names := names + [LocalName(local)];
      stack := stack + [locals[local]];
      r := Ok(());
    }

    /** ExpressionCompiler::set: records the type and names the variable;
        the stack is not touched. */
    method Set(local: nat, t: ValueType) returns (name: string)
      requires Valid()
      modifies this
      ensures Valid() && name == LocalName(local) && locals == old(locals)[local := t]
      ensures stack == old(stack) && names == old(names) && nameCnt == old(nameCnt) && chain == old(chain)
    {
      locals := locals[local := t];
      name := LocalName(local);
    }

    /** ExpressionCompiler::const: pushes a literal; the counter stays. */
    method Const(value: string, t: ValueType)
      requires Valid()
      modifies this
      ensures Valid() && names == old(names) + [value] && stack == old(stack) + [t]
      ensures nameCnt == old(nameCnt) && locals == old(locals) && chain == old(chain)
    {
      names := names + [value];
      stack := stack + [t];
    }

    /** ExpressionCompiler::push: one fresh `$stack_N` name per type, with
        the counter counting up. */
    method Push(types: seq<ValueType>) returns (newVars: seq<string>)
      requires Valid()
      modifies this
      ensures Valid() && newVars == FreshNames(old(nameCnt), |types|) && nameCnt == old(nameCnt) + |types|
      ensures names == old(names) + newVars && stack == old(stack) + types
      ensures locals == old(locals) && chain == old(chain)
    {
      newVars := [];
      var i := 0;
      while i < |types|
        invariant 0 <= i <= |types| && newVars == FreshNames(old(nameCnt), i) && nameCnt == old(nameCnt) + i
        invariant names == old(names) && stack == old(stack) && locals == old(locals) && chain == old(chain)
      {
        assert FreshNames(old(nameCnt), i + 1) == FreshNames(old(nameCnt), i) + [StackName(nameCnt)];
        newVars := newVars + [StackName(nameCnt)];
        nameCnt := nameCnt + 1;
        i := i + 1;
      }
      names := names + newVars;
      stack := stack + types;
    }

    /** ExpressionCompiler::pop: removes the top `cnt` entries and returns
        their names, bottom to top. */
    method Pop(cnt: nat) returns (popped: seq<string>)
      requires Valid()
      modifies this
      ensures Valid() && popped == Top(old(names), cnt)
      ensures names == Below(old(names), cnt) && stack == Below(old(stack), cnt)
      ensures nameCnt == old(nameCnt) && locals == old(locals) && chain == old(chain)
    {
      var k := SuffixStart(|stack|, cnt);
      popped := names[k..];
      stack := stack[..k];
      names := names[..k];
    }

    /** ExpressionCompiler::type */
    method Type(cnt: nat) returns (types: seq<ValueType>)
      ensures types == Top(stack, cnt)
    {
      types := stack[SuffixStart(|stack|, cnt)..];
    }

    /** ExpressionCompiler::peek */
    method Peek(cnt: nat) returns (ns: seq<string>)
      ensures ns == Top(names, cnt)
    {
      ns := names[SuffixStart(|names|, cnt)..];
    }

    /** ExpressionCompiler::typed: every one of the top `cnt` types must be
        `t`; the first that is not is reported. */
    method Typed(t: ValueType, cnt: nat) returns (r: Result<()>)
      ensures r.Ok? <==> forall k :: 0 <= k < |Top(stack, cnt)| ==> Top(stack, cnt)[k].code == t.code
      ensures r.Err? ==> r.error == InvalidArgumentException(MismatchMessage(cnt, FirstMismatch(Top(stack, cnt), t).value, t))
    {
      var types := Type(cnt);
      var i := 0;
      while i < |types|
        invariant 0 <= i <= |types|
        invariant FirstMismatch(types, t) == FirstMismatch(types[i..], t)
        invariant forall k :: 0 <= k < i ==> types[k].code == t.code
      {
        if types[i].code != t.code {
          return Err(InvalidArgumentException(MismatchMessage(cnt, types[i], t)));
        }
        assert types[i..][1..] == types[i + 1..];
        i := i + 1;
      }
      r := Ok(());
    }

    /** ExpressionCompiler::count */
    method Count() returns (n: nat)
      ensures n == |stack|
    {
      n := |stack|;
    }

    /** return(depth): the return map of the context `depth` levels out. */
    method Return(depth: nat) returns (r: Result<ReturnMap>)
      ensures depth < |chain| ==> r == Ok(chain[depth])
      ensures depth >= |chain| ==> r == Err(NoSuchContext(depth))
    {
      if depth >= |chain| {
        return Err(NoSuchContext(depth));
      }
      r := Ok(chain[depth]);
    }
  }
}

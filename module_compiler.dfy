/** The decoded module and the parts of its code generator that are modelled
    (src/Compiler/ModuleCompiler.php): the index spaces of functions,
    tables, memories and globals, where the imports of a kind come before
    the module's own definitions; the numbering of the imported modules;
    the class header with the namespace split off the class name; and the
    check that a start function takes no parameters. */
module Compiler {
  import opened Exceptions
  import opened Text
  import opened Token
  import opened NodeType
  import opened Ast
  import opened SourceText

  /** The four kinds of index space. */
  datatype Kind = FuncKind | TableKind | MemKind | GlobalKind

  /** The `instanceof` test of the filter: the import brings in an entity of the kind. */
  predicate OfKind(imp: Import, k: Kind) {
    match k
    case FuncKind => imp.desc.FuncImport?
    case TableKind => imp.desc.TableImport?
    case MemKind => imp.desc.MemImport?
    case GlobalKind => imp.desc.GlobalImport?
  }

  /** What `func`, `table`, `mem` and `global` return: an import, or an
      entity the module defines. */
  datatype Ref<L> = Imported(imp: Import) | Defined(local: L)

  /** The imports of one kind, in declaration order. */
  function ImportsOf(imports: seq<Import>, k: Kind): (r: seq<Import>)
    ensures |r| <= |imports|
  {
    if imports == [] then []
    else (if OfKind(imports[0], k) then [imports[0]] else []) + ImportsOf(imports[1..], k)
  }

  /** Every entry of the filtered list is an import of the kind, taken
      from the list. */
  lemma {:induction false} ImportsOfKind(imports: seq<Import>, k: Kind, j: nat)
    requires j < |ImportsOf(imports, k)|
    ensures OfKind(ImportsOf(imports, k)[j], k) && ImportsOf(imports, k)[j] in imports
  {
    if !OfKind(imports[0], k) {
      ImportsOfKind(imports[1..], k, j);
    } else if j > 0 {
      ImportsOfKind(imports[1..], k, j - 1);
    }
  }

  /** When the first n imports are all of the kind, they are the first n
      entries of the filtered list. */
  lemma {:induction false} ImportsOfPrefix(imports: seq<Import>, k: Kind, n: nat)
    requires n <= |imports| && forall j :: 0 <= j < n ==> OfKind(imports[j], k)
    ensures n <= |ImportsOf(imports, k)| && ImportsOf(imports, k)[..n] == imports[..n]
  {
    if n > 0 {
      ImportsOfPrefix(imports[1..], k, n - 1);
      assert ImportsOf(imports, k) == [imports[0]] + ImportsOf(imports[1..], k);
      assert imports[..n] == [imports[0]] + imports[1..][..n - 1];
    }
  }

  /** `func()`, `table()`, `mem()`, `global()` without an index: the
      imports of the kind, then the module's own entities (array_merge
      renumbers, so the positions are consecutive). */
  function All<L>(imports: seq<Import>, locals: seq<L>, k: Kind): (r: seq<Ref<L>>)
    ensures |r| == |ImportsOf(imports, k)| + |locals|
  {
    var imps := ImportsOf(imports, k);
    seq(|imps|, (j: int) requires 0 <= j < |imps| => Imported(imps[j]))
      + seq(|locals|, (j: int) requires 0 <= j < |locals| => Defined(locals[j]))
  }

  /** The indexed lookup, corrected: below the number of imports of the
      kind, the idx-th of them; above, the module's own entity idx - count.
      An index with nothing behind it yields PHP's null. */
  function At<L>(imports: seq<Import>, locals: seq<L>, k: Kind, idx: int): (r: Option<Ref<L>>)
  {
    var imps := ImportsOf(imports, k);
    if idx < |imps| then (if 0 <= idx then Some(Imported(imps[idx])) else None)
    else if idx - |imps| < |locals| then Some(Defined(locals[idx - |imps|]))
    else None
  }

  /** The indexed lookup finds what the full list has at that position:
      imports first, then definitions, each in declaration order. */
  lemma AtAgreesWithAll<L>(imports: seq<Import>, locals: seq<L>, k: Kind, idx: int)
    ensures At(imports, locals, k, idx) == (if 0 <= idx < |All(imports, locals, k)| then Some(All(imports, locals, k)[idx]) else None)
  {
    var imps := ImportsOf(imports, k);
    var all := All(imports, locals, k);
    if 0 <= idx < |imps| {
      assert all[idx] == Imported(imps[idx]);
    } else if |imps| <= idx < |all| {
      assert all[idx] == Defined(locals[idx - |imps|]);
    }
  }

  /** An index below the import count names an import of the kind; any
      other valid index names a definition. */
  lemma AtImportsFirst<L>(imports: seq<Import>, locals: seq<L>, k: Kind, idx: int)
    requires 0 <= idx
    ensures var cnt := |ImportsOf(imports, k)|;
      (idx < cnt ==> At(imports, locals, k, idx).Some? && At(imports, locals, k, idx).value.Imported?
                     && OfKind(At(imports, locals, k, idx).value.imp, k))
      && (cnt <= idx < cnt + |locals| ==> At(imports, locals, k, idx) == Some(Defined(locals[idx - cnt])))
      && (idx >= cnt + |locals| ==> At(imports, locals, k, idx).None?)
  {
    if idx < |ImportsOf(imports, k)| {
      ImportsOfKind(imports, k, idx);
    }
  }

  /** The indexed lookup as written: array_filter keeps the original keys,
      so `$imports[$idx]` is the entry at position idx of the whole import
      list, present only if that entry is of the kind. */
  function AtAsWritten<L>(imports: seq<Import>, locals: seq<L>, k: Kind, idx: int): (r: Option<Ref<L>>)
  {
    var cnt := |ImportsOf(imports, k)|;
    if idx < cnt then
      (if 0 <= idx < |imports| && OfKind(imports[idx], k) then Some(Imported(imports[idx])) else None)
    else if idx - cnt < |locals| then Some(Defined(locals[idx - cnt]))
    else None
  }

  /** The code as written is right when the imports of the kind come
      before all other imports. */
  lemma AsWrittenAgreesWhenFirst<L>(imports: seq<Import>, locals: seq<L>, k: Kind, idx: int)
    requires var cnt := |ImportsOf(imports, k)|;
      cnt <= |imports| && forall j :: 0 <= j < cnt ==> OfKind(imports[j], k)
    ensures AtAsWritten(imports, locals, k, idx) == At(imports, locals, k, idx)
  {
    var cnt := |ImportsOf(imports, k)|;
    ImportsOfPrefix(imports, k, cnt);
    if 0 <= idx < cnt {
      assert ImportsOf(imports, k)[idx] == ImportsOf(imports, k)[..cnt][idx];
    }
  }

  /** A global import declared before a function import: as written,
      `func(0)` reads key 0 of the filtered array, which holds the global,
      so it yields null instead of the function import. */
  lemma AsWrittenMissesLaterImport()
    ensures var g := Import([0x65], [0x67], GlobalImport(GlobalType(ValueType(I32), false)));
      var f := Import([0x65], [0x66], FuncImport(0));
      AtAsWritten<Func>([g, f], [], FuncKind, 0).None?
      && At<Func>([g, f], [], FuncKind, 0) == Some(Imported(f))
  {
    var g := Import([0x65], [0x67], GlobalImport(GlobalType(ValueType(I32), false)));
    var f := Import([0x65], [0x66], FuncImport(0));
    assert [g, f][1..] == [f];
    assert [f][1..] == [];
    assert ImportsOf([g, f], FuncKind) == [f];
  }

  /** The type index of a function, imported or defined. */
  function TypeIdxOf(f: Ref<Func>): nat {
    match f
    case Imported(imp) => if imp.desc.FuncImport? then imp.desc.typeIdx else 0
    case Defined(func) => func.typeIdx
  }

  /** The start check of compileConstruct: Ok(false) when there is no start
      function (-1), Ok(true) when it takes no parameters, a
      RuntimeException when it does, and PHP's Error when the function or
      its type is missing (a method call on null). */
  function StartCheck(types: seq<FuncType>, imports: seq<Import>, funcs: seq<Func>, start: int): (r: Result<bool>)
    ensures r == Ok(false) <==> start == -1
    ensures r == Ok(true) <==> (start != -1 && At(imports, funcs, FuncKind, start).Some?
      && TypeIdxOf(At(imports, funcs, FuncKind, start).value) < |types|
      && types[TypeIdxOf(At(imports, funcs, FuncKind, start).value)].input == [])
    ensures r.Err? && r.error.RuntimeException? <==> (start != -1 && At(imports, funcs, FuncKind, start).Some?
      && TypeIdxOf(At(imports, funcs, FuncKind, start).value) < |types|
      && types[TypeIdxOf(At(imports, funcs, FuncKind, start).value)].input != [])
  {
    if start == -1 then Ok(false)
    else match At(imports, funcs, FuncKind, start)
      case None => Err(PhpError("Call to a member function typeIdx() on null"))
      case Some(f) =>
        if TypeIdxOf(f) >= |types| then Err(PhpError("Call to a member function getInput() on null"))
        else if types[TypeIdxOf(f)].input != [] then Err(RuntimeException("A function with input parameters cant be start"))
        else Ok(true)
  }

  /** The lines the start code adds to the constructor. */
  function StartLines(start: nat): seq<seq<string>> {
    [["// start code"], ["($this->fn_" + NatToString(start) + ")();"], []]
  }

  /** The index of the first import from each module, as
      `array_flip(array_unique(...))` gives it. */
  ghost predicate FirstOccurrences(imports: seq<Import>, refs: map<seq<byte>, nat>) {
    (forall j :: 0 <= j < |imports| ==> imports[j].moduleName in refs)
    && (forall m :: m in refs ==>
          refs[m] < |imports| && imports[refs[m]].moduleName == m
          && forall j :: 0 <= j < refs[m] ==> imports[j].moduleName != m)
  }

  /** The index on which a module name is found first is unique, so the
      numbering is a function of the imports. */
  lemma FirstOccurrencesUnique(imports: seq<Import>, a: map<seq<byte>, nat>, b: map<seq<byte>, nat>)
    requires FirstOccurrences(imports, a) && FirstOccurrences(imports, b)
    ensures a == b
  {
    forall m | m in a
      ensures m in b && a[m] == b[m]
    {
      assert imports[a[m]].moduleName == m;
      assert imports[b[m]].moduleName == m;
    }
    forall m | m in b
      ensures m in a
    {
      assert imports[b[m]].moduleName == m;
    }
  }

  /** compileHeader's fqcn handling: one leading backslash is dropped; a
      backslash after the first character splits the namespace from the
      class name at the last one. */
  function StripLeading(fqcn: string): string {
    if |fqcn| > 0 && fqcn[0] == '\\' then fqcn[1..] else fqcn
  }

  /** `strrpos`: the last position holding c. */
  function LastIndexOf(s: string, c: char): (r: Option<nat>)
    ensures r.Some? ==> r.value < |s| && s[r.value] == c && forall j :: r.value < j < |s| ==> s[j] != c
    ensures r.None? ==> forall j :: 0 <= j < |s| ==> s[j] != c
  {
    if s == [] then None
    else if s[|s| - 1] == c then Some(|s| - 1)
    else LastIndexOf(s[..|s| - 1], c)
  }

  /** The namespace, if any, and the class name. A last backslash at
      position 0 is falsy in the `if`, so then there is no namespace. */
  function SplitFqcn(fqcn: string): (r: (Option<string>, string))
    ensures var name := StripLeading(fqcn);
      (r.0.None? ==> r.1 == name)
      && (r.0.Some? ==> |r.0.value| > 0 && r.0.value + "\\" + r.1 == name
                        && forall j :: 0 <= j < |r.1| ==> r.1[j] != '\\')
  {
    var name := StripLeading(fqcn);
    match LastIndexOf(name, '\\')
    case Some(p) =>
      if p == 0 then (None, name)
      else
        assert name == name[..p] + "\\" + name[p + 1..];
        (Some(name[..p]), name[p + 1..])
    case None => (None, name)
  }

  /** The last c is the one after which no other comes. */
  lemma LastIndexAt(s: string, c: char, p: nat)
    requires p < |s| && s[p] == c && forall j :: p < j < |s| ==> s[j] != c
    ensures LastIndexOf(s, c) == Some(p)
  {
  }

  /** A namespaced name splits where it was joined. */
  lemma SplitJoined(ns: string, cls: string)
    requires |ns| > 0 && ns[0] != '\\' && forall j :: 0 <= j < |cls| ==> cls[j] != '\\'
    ensures SplitFqcn(ns + "\\" + cls) == (Some(ns), cls)
    ensures SplitFqcn("\\" + ns + "\\" + cls) == (Some(ns), cls)
  {
    var name := ns + "\\" + cls;
    var p := |ns|;
    assert name[p] == '\\';
    forall j | p < j < |name|
      ensures name[j] != '\\'
    {
      assert name[j] == cls[j - p - 1];
    }
    LastIndexAt(name, '\\', p);
    assert name[..p] == ns && name[p + 1..] == cls;
    assert name[0] == ns[0];
    assert StripLeading(name) == name;
    var lead := "\\" + ns + "\\" + cls;
    assert lead == "\\" + name;
    assert StripLeading(lead) == name by {
      assert lead[1..] == name;
    }
  }

  /** The lines compileHeader writes before it indents. */
  function HeaderLines(fqcn: string): seq<seq<string>> {
    var parts := SplitFqcn(fqcn);
    [["declare(strict_types=1);"], [""]]
      + (if parts.0.Some? then [["namespace " + parts.0.value + ";"], []] else [])
      + [["class " + parts.1], ["{"]]
  }

  class ModuleCompiler {
    var types: seq<FuncType>
    var funcs: seq<Func>
    var tables: seq<Table>
    var mems: seq<Memory>
    var globals: seq<Global>
    var elems: seq<Element>
    var datas: seq<Data>
    /** the start function, -1 for none */
    var start: int
    var imports: seq<Import>
    var exports: seq<Export>
    var importRefs: map<seq<byte>, nat>

    /** An empty module, with no start function. */
    constructor()
      ensures types == [] && funcs == [] && tables == [] && mems == [] && globals == []
      ensures elems == [] && datas == [] && start == -1 && imports == [] && exports == []
      ensures importRefs == map[]
    {
      types := [];
      funcs := [];
      tables := [];
      mems := [];
      globals := [];
      elems := [];
      datas := [];
      start := -1;
      imports := [];
      exports := [];
      importRefs := map[];
    }

    /** The first step of compile: number each imported module by the
        position of its first import. */
    method PrepareImportRefs()
      modifies this
      ensures FirstOccurrences(imports, importRefs)
      ensures imports == old(imports) && types == old(types) && funcs == old(funcs) && start == old(start)
    {
      var refs: map<seq<byte>, nat> := map[];
      var i := 0;
      while i < |imports|
        invariant 0 <= i <= |imports|
        invariant FirstOccurrences(imports[..i], refs)
      {
        var m := imports[i].moduleName;
        if m !in refs {
          refs := refs[m := i];
        }
        assert imports[..i + 1][..i] == imports[..i];
        i := i + 1;
      }
      assert imports[..i] == imports;
      importRefs := refs;
    }

    /** compileHeader: the strict-types declaration, the namespace if the
        name has one, the class line and its brace, then one level in. */
    method CompileHeader(src: Source, fqcn: string)
      requires src.Valid() && src.AtEnd()
      modifies src
      ensures src.Valid() && src.AtEnd() && src.indentation == old(src.indentation) + 1
      ensures src.buffer == old(src.buffer) + Lines(old(src.indentation), HeaderLines(fqcn))
    {
      src.WriteEach(HeaderLines(fqcn));
      src.Indent(1);
    }

    /** The start part of compileConstruct: the check, then the call of the
        start function. */
    method CompileStart(src: Source) returns (r: Result<()>)
      requires src.Valid() && src.AtEnd()
      modifies src
      ensures src.Valid() && src.AtEnd() && src.indentation == old(src.indentation)
      ensures r.Ok? <==> StartCheck(types, imports, funcs, start).Ok?
      ensures StartCheck(types, imports, funcs, start) == Ok(true) ==>
        start >= 0 && src.buffer == old(src.buffer) + Lines(old(src.indentation), StartLines(start))
      ensures StartCheck(types, imports, funcs, start) != Ok(true) ==> src.buffer == old(src.buffer)
    {
      var check := StartCheck(types, imports, funcs, start);
      if check.Err? {
        return Err(check.error);
      }
      if check.value {
        src.WriteEach(StartLines(start));
      }
      r := Ok(());
    }
  }
}

/** The element section (src/Compiler/Binary/ElemsBuilder.php): a vector of
    segments, each led by a flag byte whose three bits say whether the
    segment is active, whether it names its table, and whether its items
    are expressions or function indices. */
module ElemsBuilder {
  import opened Exceptions
  import opened Token
  import opened Stream
  import opened Ast
  import opened Parser
  import opened Compiler
  import opened Instructions

  /** The element section has id 9. */
  predicate Supported(sectionId: int) {
    sectionId == 9
  }

  // ---------------------------------------------------------------------
  // the flag byte

  /** Bit 0 clear: the segment is active. */
  predicate IsActive(flag: byte) {
    flag % 2 == 0
  }

  /** Bit 1: the table index is explicit (for a passive flag: declarative). */
  predicate IndexExplicit(flag: byte) {
    flag / 2 % 2 == 1
  }

  /** Bit 2: the items are expressions rather than function indices. */
  predicate HasExpression(flag: byte) {
    flag / 4 % 2 == 1
  }

  /** The source reads the element kind byte only when the segment is
      neither active nor explicit: flags 1 and 5. */
  predicate KindReadAsWritten(flag: byte) {
    !IsActive(flag) && !IndexExplicit(flag)
  }

  /** The binary format has the element kind (or reference type) byte
      whenever bit 0 or bit 1 is set: flags 1, 2, 3, 5, 6 and 7. */
  predicate KindRead(flag: byte) {
    !IsActive(flag) || IndexExplicit(flag)
  }

  // ---------------------------------------------------------------------
  // the parts of a segment

  /** A function index item: one ref.func node. */
  function FuncRefItem(x: (), c: Cursor, i: nat): (r: Result<Parsed<seq<Instr>>>)
    ensures r.Ok? ==> Advanced(c, r.value.next)
    ensures r.Ok? ==> |r.value.v| == 1 && r.value.v[0].RefFunc?
  {
    match U32(c)
    case Err(e) => Err(e)
    case Ok(idx) => Ok(Parsed([RefFunc(idx.v)], idx.next))
  }

  /** An expression item, up to 0x0B. */
  function ExprItem(x: (), c: Cursor, i: nat): (r: Result<Parsed<seq<Instr>>>)
    ensures r.Ok? ==> Advanced(c, r.value.next)
  {
    Expr(c, 0x0B, [])
  }

  lemma ItemsReadForward()
    ensures ReadsForward((), FuncRefItem) && ReadsForward((), ExprItem)
  {
  }

  /** The table index: read for an active segment with an explicit index,
      0 otherwise. */
  function TableIdxOf(flag: byte, c: Cursor): (r: Result<Parsed<nat>>)
    ensures r.Ok? ==> Advanced(c, r.value.next)
    ensures !(IsActive(flag) && IndexExplicit(flag)) ==> r == Ok(Parsed(0, c))
  {
    if IsActive(flag) && IndexExplicit(flag) then U32(c) else Ok(Parsed(0, c))
  }

  /** The offset expression, present exactly for an active segment. */
  function OffsetOf(flag: byte, c: Cursor): (r: Result<Parsed<Option<seq<Instr>>>>)
    ensures r.Ok? ==> Advanced(c, r.value.next)
    ensures r.Ok? ==> (r.value.v.Some? <==> IsActive(flag))
    ensures !IsActive(flag) ==> r == Ok(Parsed(None, c))
  {
    if IsActive(flag) then
      match Expr(c, 0x0B, [])
      case Err(e) => Err(e)
      case Ok(off) => Ok(Parsed(Some(off.v), off.next))
    else Ok(Parsed(None, c))
  }

  /** `expectByte(0x00)`: the kind byte, which any value passes. */
  function KindOf(present: bool, c: Cursor): (next: Cursor)
    ensures Advanced(c, next)
    ensures !present ==> next == c
  {
    if present then Reserved(c) else c
  }

  /** The init items: a vector of expressions or of function indices. */
  function InitOf(flag: byte, c: Cursor): (r: Result<Parsed<seq<seq<Instr>>>>)
    ensures r.Ok? ==> Advanced(c, r.value.next)
    ensures !HasExpression(flag) ==> r == Vector((), c, FuncRefItem)
  {
    ItemsReadForward();
    VectorAdvances((), c, ExprItem);
    VectorAdvances((), c, FuncRefItem);
    if HasExpression(flag) then Vector((), c, ExprItem) else Vector((), c, FuncRefItem)
  }

  /** The mode a flag selects. */
  function ModeOf(flag: byte): ElemMode {
    if IsActive(flag) then Active else if IndexExplicit(flag) then Declarative else Passive
  }

  /** Element::active, ::declarative or ::passive. */
  function Segment(flag: byte, tableIdx: nat, offset: Option<seq<Instr>>, init: seq<seq<Instr>>): Element {
    if IsActive(flag) then Element(Active, init, Some(tableIdx), offset)
    else Element(ModeOf(flag), init, None, None)
  }

  /** What the flag says about the segment: bit 0 selects active, bit 1
      then declarative over passive; only an active segment has a table
      index and an offset, and the index is 0 unless bit 1 is set. */
  predicate ModeFits(flag: byte, e: Element) {
    (e.mode == Active <==> flag % 2 == 0)
    && (e.mode == Declarative <==> flag % 4 == 3)
    && (e.tableIdx.Some? <==> e.mode == Active)
    && (e.offset.Some? <==> e.mode == Active)
    && (flag == 0 || flag == 4 ==> e.tableIdx == Some(0))
  }

  lemma SegmentFits(flag: byte, tableIdx: nat, offset: Option<seq<Instr>>, init: seq<seq<Instr>>)
    requires flag <= 7 && (offset.Some? <==> IsActive(flag))
    requires !(IsActive(flag) && IndexExplicit(flag)) ==> tableIdx == 0
    ensures ModeFits(flag, Segment(flag, tableIdx, offset, init))
  {
  }

  /** elem, with the kind byte read when `kindRead(flag)` holds. */
  function ElemWith(c: Cursor, asWritten: bool): (r: Result<Parsed<Element>>)
    ensures r.Ok? ==> Advanced(c, r.value.next)
    ensures r.Ok? ==> ExpectByte(c, 0, 7).Ok? && ModeFits(ExpectByte(c, 0, 7).value.v, r.value.v)
    ensures ExpectByte(c, 0, 7).Err? ==> r == Err(ExpectByte(c, 0, 7).error)
  {
    match ExpectByte(c, 0, 7)
    case Err(e) => Err(e)
    case Ok(flag) =>
      ExpectByteAdvances(c, 0, 7);
      ExpectByteBounded(c, 7);
      match TableIdxOf(flag.v, flag.next)
      case Err(e) => Err(e)
      case Ok(t) =>
        match OffsetOf(flag.v, t.next)
        case Err(e) => Err(e)
        case Ok(off) =>
          var k := KindOf(KindPresent(flag.v, asWritten), off.next);
          match InitOf(flag.v, k)
          case Err(e) => Err(e)
          case Ok(init) =>
            AdvancedTrans(c, flag.next, t.next);
            AdvancedTrans(c, t.next, off.next);
            AdvancedTrans(c, off.next, k);
            AdvancedTrans(c, k, init.next);
            SegmentFits(flag.v, t.v, off.v, init.v);
            Ok(Parsed(Segment(flag.v, t.v, off.v, init.v), init.next))
  }

  /** ElemsBuilder::elem as written. */
  function ElemOfAsWritten(x: (), c: Cursor, i: nat): (r: Result<Parsed<Element>>)
    ensures r.Ok? ==> Advanced(c, r.value.next)
  {
    ElemWith(c, true)
  }

  /** ElemsBuilder::elem with the kind byte read wherever the binary format
      has it. The flag must be at most 7 and fixes the mode. */
  function ElemOf(x: (), c: Cursor, i: nat): (r: Result<Parsed<Element>>)
    ensures r.Ok? ==> Advanced(c, r.value.next)
    ensures NextByte(c) > 7 ==> r == Err(RuntimeException("Invalid value"))
    ensures r.Ok? ==> NextByte(c) <= 7 && ModeFits(NextByte(c), r.value.v)
  {
    ExpectByteBounded(c, 7);
    ElemWith(c, false)
  }

  lemma ElemReadsForward()
    ensures ReadsForward((), ElemOf)
  {
  }

  /** Without bit 2 every init item is a single ref.func. */
  lemma FuncRefItems(c: Cursor, k: nat)
    requires ElemOf((), c, 0).Ok? && !HasExpression(NextByte(c))
    requires k < |ElemOf((), c, 0).value.v.init|
    ensures var item := ElemOf((), c, 0).value.v.init[k]; |item| == 1 && item[0].RefFunc?
  {
    var flag := ExpectByte(c, 0, 7).value;
    var t := TableIdxOf(flag.v, flag.next).value;
    var off := OffsetOf(flag.v, t.next).value;
    var k0 := KindOf(KindRead(flag.v), off.next);
    var ck := VectorElement((), k0, FuncRefItem, k);
  }

  // ---------------------------------------------------------------------
  // reading back

  /** The concatenation of a list of encodings. */
  function Joined(encs: seq<seq<byte>>): seq<byte> {
    if encs == [] then [] else encs[0] + Joined(encs[1..])
  }

  /** Function indices i.. each in an encoding a 32-bit read accepts. */
  predicate IdxsEncoded(encs: seq<seq<byte>>, idxs: seq<nat>) {
    |encs| == |idxs| && forall k :: 0 <= k < |encs| ==> U32Encoding(encs[k], idxs[k])
  }

  function Refs(idxs: seq<nat>): (r: seq<seq<Instr>>)
    ensures |r| == |idxs|
  {
    if idxs == [] then [] else [[RefFunc(idxs[0])]] + Refs(idxs[1..])
  }

  /** One function index read back as its ref.func item. */
  lemma FuncRefHeld(c: Cursor, enc: seq<byte>, idx: nat, i: nat)
    requires U32Encoding(enc, idx) && HoldsAt(c, enc)
    ensures FuncRefItem((), c, i) == Ok(Parsed([RefFunc(idx)], Ahead(c, |enc|)))
  {
    ExpectU32Held(c, enc, idx);
  }

  lemma JoinedFirst(encs: seq<seq<byte>>, i: nat)
    requires i < |encs|
    ensures Joined(encs[i..]) == encs[i] + Joined(encs[i + 1..])
  {
    assert encs[i..][1..] == encs[i + 1..];
  }

  lemma RefsFirst(idxs: seq<nat>, i: nat)
    requires i < |idxs|
    ensures Refs(idxs[i..]) == [[RefFunc(idxs[i])]] + Refs(idxs[i + 1..])
  {
    assert idxs[i..][1..] == idxs[i + 1..];
  }

  lemma {:induction false} FuncRefsFrom(c: Cursor, encs: seq<seq<byte>>, idxs: seq<nat>, i: nat, acc: seq<seq<Instr>>)
    requires IdxsEncoded(encs, idxs) && i <= |idxs| && HoldsAt(c, Joined(encs[i..]))
    ensures VectorFrom((), c, FuncRefItem, i, |idxs|, acc)
            == Ok(Parsed(acc + Refs(idxs[i..]), Ahead(c, |Joined(encs[i..])|)))
    decreases |idxs| - i
  {
    if i < |idxs| {
      JoinedFirst(encs, i);
      RefsFirst(idxs, i);
      HoldsAtSplit(c, encs[i], Joined(encs[i + 1..]));
      assert U32Encoding(encs[i], idxs[i]);
      FuncRefHeld(c, encs[i], idxs[i], i);
      var next := Ahead(c, |encs[i]|);
      VectorFromStep((), c, FuncRefItem, i, |idxs|, acc, [RefFunc(idxs[i])], next);
      FuncRefsFrom(next, encs, idxs, i + 1, acc + [[RefFunc(idxs[i])]]);
      AheadAhead(c, |encs[i]|, |Joined(encs[i + 1..])|);
      assert Ahead(next, |Joined(encs[i + 1..])|) == Ahead(c, |Joined(encs[i..])|);
      assert acc + [[RefFunc(idxs[i])]] + Refs(idxs[i + 1..]) == acc + Refs(idxs[i..]);
    } else {
      assert idxs[i..] == [] && encs[i..] == [];
      assert Refs(idxs[i..]) == [] && Joined(encs[i..]) == [];
      assert acc + Refs(idxs[i..]) == acc;
      assert Ahead(c, 0) == c;
      assert VectorFrom((), c, FuncRefItem, i, |idxs|, acc) == Ok(Parsed(acc, c));
    }
  }

  /** A vector of function indices is read back as ref.func items. */
  lemma FuncRefsRoundTrip(c: Cursor, count: seq<byte>, encs: seq<seq<byte>>, idxs: seq<nat>)
    requires U32Encoding(count, |idxs|) && IdxsEncoded(encs, idxs)
    requires HoldsAt(c, count) && HoldsAt(Ahead(c, |count|), Joined(encs))
    ensures Vector((), c, FuncRefItem) == Ok(Parsed(Refs(idxs), Ahead(Ahead(c, |count|), |Joined(encs)|)))
  {
    ExpectU32Held(c, count, |idxs|);
    assert encs[0..] == encs && idxs[0..] == idxs;
    FuncRefsFrom(Ahead(c, |count|), encs, idxs, 0, []);
  }

  /** The kind byte is read for this flag. */
  function KindPresent(flag: byte, asWritten: bool): bool {
    if asWritten then KindReadAsWritten(flag) else KindRead(flag)
  }

  /** A segment is its flag, table index, offset and items, each as the
      stream yields it. */
  lemma ElemParts(c: Cursor, asWritten: bool, flag: byte, t: nat, off: Option<seq<Instr>>, init: seq<seq<Instr>>,
                  c1: Cursor, c2: Cursor, c3: Cursor, c4: Cursor)
    requires ExpectByte(c, 0, 7) == Ok(Parsed(flag, c1))
    requires TableIdxOf(flag, c1) == Ok(Parsed(t, c2))
    requires OffsetOf(flag, c2) == Ok(Parsed(off, c3))
    requires InitOf(flag, KindOf(KindPresent(flag, asWritten), c3)) == Ok(Parsed(init, c4))
    ensures ElemWith(c, asWritten) == Ok(Parsed(Segment(flag, t, off, init), c4))
  {
  }

  /** Flags 1 and 3: inactive, function indices, the kind byte present
      (in the source only for flag 1). */
  lemma InactiveBits(flag: byte)
    requires flag == 1 || flag == 3
    ensures !IsActive(flag) && !HasExpression(flag) && KindRead(flag)
    ensures KindReadAsWritten(flag) <==> flag == 1
    ensures ModeOf(flag) == if flag == 1 then Passive else Declarative
  {
  }

  /** Flag 0: active for table 0, function indices, no kind byte. */
  lemma ActiveBits()
    ensures IsActive(0) && !IndexExplicit(0) && !HasExpression(0) && !KindRead(0)
  {
  }

  /** A passive (flag 1) or declarative (flag 3) segment of function indices
      is read back: the flag, the kind byte, and the index vector. */
  lemma InactiveRoundTrip(c: Cursor, flag: byte, kind: byte, count: seq<byte>, encs: seq<seq<byte>>, idxs: seq<nat>)
    requires flag == 1 || flag == 3
    requires HoldsAt(c, [flag]) && HoldsAt(Ahead(c, 1), [kind])
    requires U32Encoding(count, |idxs|) && IdxsEncoded(encs, idxs)
    requires HoldsAt(Ahead(Ahead(c, 1), 1), count) && HoldsAt(Ahead(Ahead(Ahead(c, 1), 1), |count|), Joined(encs))
    ensures ElemOf((), c, 0)
            == Ok(Parsed(Element(if flag == 1 then Passive else Declarative, Refs(idxs), None, None),
                         Ahead(Ahead(Ahead(Ahead(c, 1), 1), |count|), |Joined(encs)|)))
  {
    var c1 := Ahead(c, 1);
    var c2 := Ahead(c1, 1);
    ExpectByteHeld(c, flag, 0, 7);
    InactiveBits(flag);
    ReadHeld(c1, kind);
    assert KindOf(KindPresent(flag, false), c1) == c2;
    FuncRefsRoundTrip(c2, count, encs, idxs);
    ElemParts(c, false, flag, 0, None, Refs(idxs), c1, c1, c1, Ahead(Ahead(c2, |count|), |Joined(encs)|));
  }

  /** An active segment for table 0 (flag 0) is read back: the flag, the
      offset expression, and the index vector, with no kind byte. */
  lemma ActiveRoundTrip(c: Cursor, offset: seq<Instr>, c1: Cursor, count: seq<byte>, encs: seq<seq<byte>>, idxs: seq<nat>)
    requires HoldsAt(c, [0]) && Expr(Ahead(c, 1), 0x0B, []) == Ok(Parsed(offset, c1))
    requires U32Encoding(count, |idxs|) && IdxsEncoded(encs, idxs)
    requires HoldsAt(c1, count) && HoldsAt(Ahead(c1, |count|), Joined(encs))
    ensures ElemOf((), c, 0)
            == Ok(Parsed(Element(Active, Refs(idxs), Some(0), Some(offset)), Ahead(Ahead(c1, |count|), |Joined(encs)|)))
  {
    ExpectByteHeld(c, 0, 0, 7);
    FuncRefsRoundTrip(c1, count, encs, idxs);
    ActiveBits();
    ElemParts(c, false, 0, 0, Some(offset), Refs(idxs), Ahead(c, 1), Ahead(c, 1), c1, Ahead(Ahead(c1, |count|), |Joined(encs)|));
  }

  const FLAG3: seq<byte> := [3, 0, 1, 5]

  /** Flag 3, a declarative segment of function indices, carries a kind
      byte that the source takes for the item count: the bytes 03 00 01 05
      (kind 0, one item, function 5) give an empty segment and leave two
      bytes unread. */
  lemma DeclarativeKindSkipped()
    ensures ElemOfAsWritten((), Cursor(FLAG3, 0, false), 0)
            == Ok(Parsed(Element(Declarative, [], None, None), Cursor(FLAG3, 2, false)))
  {
    var c := Cursor(FLAG3, 0, false);
    var c1 := Ahead(c, 1);
    assert HoldsAt(c, [3]) && HoldsAt(c1, [0]);
    assert U32Encoding([0], 0);
    ExpectByteHeld(c, 3, 0, 7);
    InactiveBits(3);
    assert KindOf(KindPresent(3, true), c1) == c1;
    FuncRefsRoundTrip(c1, [0], [], []);
    ElemParts(c, true, 3, 0, None, [], c1, c1, c1, Ahead(c, 2));
  }

  /** The same bytes read with the kind byte: one ref.func 5, all four
      bytes consumed, as the binary format means. */
  lemma DeclarativeKindRead()
    ensures ElemOf((), Cursor(FLAG3, 0, false), 0)
            == Ok(Parsed(Element(Declarative, [[RefFunc(5)]], None, None), Cursor(FLAG3, 4, false)))
  {
    var c := Cursor(FLAG3, 0, false);
    ByteHeld(FLAG3, 0, 3);
    ByteHeld(FLAG3, 1, 0);
    ByteHeld(FLAG3, 2, 1);
    ByteHeld(FLAG3, 3, 5);
    SingleByteU32(1);
    SingleByteU32(5);
    assert Joined([[5]]) == [5] by {
      assert [[5]][1..] == [];
    }
    assert Refs([5]) == [[RefFunc(5)]] by {
      assert [5][1..] == [];
    }
    InactiveRoundTrip(c, 3, 0, [1], [[5]], [5]);
  }

  lemma ByteHeld(data: seq<byte>, pos: nat, b: byte)
    requires pos < |data| && data[pos] == b
    ensures HoldsAt(Cursor(data, pos, false), [b])
  {
    assert data[pos..pos + 1] == [b];
  }

  lemma SingleByteU32(b: byte)
    requires b < 128
    ensures U32Encoding([b], b)
  {
    assert [b][1..] == [];
    assert Groups([b]) == b % 128 + 128 * Groups([]);
    assert WellFormed([b]);
  }

  /** ElemsBuilder::scan: the section's vector becomes the module's element
      segments. An error leaves them as they were. */
  method Scan(parser: BinaryParser, compiler: ModuleCompiler) returns (r: Result<()>)
    modifies parser, compiler
    ensures var spec := Vector((), old(parser.At()), ElemOf);
      (spec.Ok? ==> r == Ok(()) && compiler.elems == spec.value.v && parser.At() == spec.value.next)
      && (spec.Err? ==> r == Err(spec.error) && compiler.elems == old(compiler.elems))
    ensures compiler.types == old(compiler.types) && compiler.funcs == old(compiler.funcs)
    ensures compiler.imports == old(compiler.imports) && compiler.exports == old(compiler.exports)
    ensures compiler.start == old(compiler.start)
  {
    ElemReadsForward();
    var elems := parser.ExpectVector((), ElemOf);
    if elems.Err? {
      return Err(elems.error);
    }
    compiler.elems := elems.value;
    r := Ok(());
  }
}

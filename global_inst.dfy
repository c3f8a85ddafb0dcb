/** The runtime global instance (src/Runtime/GlobalInst.php): one value
    slot per kind, a one-letter kind tag that decides which accessors it
    answers, and a count of the sets it still allows. */
module Runtime {
  import opened Exceptions
  import Store

  /** A PHP float, kept as its IEEE 754 bits: the global only stores it. */
  datatype Float = Float(bits: bv64)

  const NOT_INT: string := "The type of this global is not an integer"
  const NOT_FLOAT: string := "The type of this global is not a float"
  const NOT_REF: string := "The type of this global is not a callable reference"
  const IMMUTABLE: string := "This global is immutable"

  /** The tags the int accessors answer: 'i' (i32) and 'I' (i64). */
  predicate IntKind(kind: string) {
    kind == "i" || kind == "I"
  }

  /** The tags the float accessors answer: 'f' (f32) and 'F' (f64). */
  predicate FloatKind(kind: string) {
    kind == "f" || kind == "F"
  }

  /** The tag the reference accessors answer. */
  predicate RefKind(kind: string) {
    kind == "r"
  }

  // ---------------------------------------------------------------------
  // the count of allowed sets

  /** The count check of every setter: a count of 0 refuses the set, a
      number is decremented, and null allows every set. */
  function Mutated(cnt: Option<int>): (r: Result<Option<int>>)
    ensures r.Err? <==> cnt == Some(0)
    ensures r.Err? ==> r.error == LogicException(IMMUTABLE)
    ensures r.Ok? && cnt.Some? ==> r.value == Some(cnt.value - 1)
    ensures r.Ok? && cnt.None? ==> r.value == None
  {
    if cnt == Some(0) then Err(LogicException(IMMUTABLE))
    else if cnt.Some? then Ok(Some(cnt.value - 1))
    else Ok(None)
  }

  /** The count after `k` sets in a row, or the error of the first set
      refused. */
  function Sets(cnt: Option<int>, k: nat): (r: Result<Option<int>>)
    decreases k
  {
    if k == 0 then Ok(cnt)
    else
      match Mutated(cnt)
      case Err(e) => Err(e)
      case Ok(next) => Sets(next, k - 1)
  }

  /** The constructor's count as written: 1 for a mutable global, null for
      an immutable one. */
  function MutateCntAsWritten(mutable: bool): (r: Option<int>) {
    if mutable then Some(1) else None
  }

  /** The count the rest of the program expects: GlobalType documents
      `mutable` as "whether the global value is mutable during runtime"
      (src/Compiler/Node/Type/GlobalType.php:31), and the compiled module
      calls the setter once right after construction to initialise the
      global (src/Compiler/Node/Store/GlobalData.php:84-85). So an
      immutable global allows that one set and a mutable one every set. */
  function MutateCnt(mutable: bool): (r: Option<int>) {
    if mutable then None else Some(1)
  }

  /** Null allows any number of sets and stays null. */
  lemma {:induction false} UnlimitedSets(k: nat)
    ensures Sets(None, k) == Ok(None)
  {
    if k > 0 {
      UnlimitedSets(k - 1);
    }
  }

  /** From 0 every run of sets is refused. */
  lemma ExhaustedRefuses(k: nat)
    requires k > 0
    ensures Sets(Some(0), k) == Err(LogicException(IMMUTABLE))
  {
  }

  /** A count of 1 allows exactly one set. */
  lemma OneSetOnly(k: nat)
    ensures Sets(Some(1), k).Ok? <==> k <= 1
  {
    if k > 1 {
      assert Sets(Some(1), k) == Sets(Some(0), k - 1);
      ExhaustedRefuses(k - 1);
    }
  }

  /** As written, a mutable global refuses its second set, and an
      immutable one allows every set. */
  lemma MutabilityInvertedAsWritten(k: nat)
    ensures Sets(MutateCntAsWritten(true), k).Ok? <==> k <= 1
    ensures Sets(MutateCntAsWritten(false), k).Ok?
  {
    OneSetOnly(k);
    UnlimitedSets(k);
  }

  /** With the count the program expects, a mutable global allows every
      set and an immutable one exactly its initialising set. */
  lemma MutabilityHonoured(k: nat)
    ensures Sets(MutateCnt(true), k).Ok?
    ensures Sets(MutateCnt(false), k).Ok? <==> k <= 1
  {
    UnlimitedSets(k);
    OneSetOnly(k);
  }

  // ---------------------------------------------------------------------
  // the instance

  class GlobalInst {
    /** the one-letter kind tag */
    const kind: string
    var intValue: int
    var floatValue: Float
    var refValue: Store.Slot
    /** the number of sets still allowed; None for no limit */
    var mutateCnt: Option<int>

    /** A global of kind `kind` holding 0, 0.0 and null. */
    constructor(kind: string, mutable: bool)
      ensures this.kind == kind && intValue == 0 && floatValue == Float(0) && refValue == None
      ensures mutateCnt == MutateCnt(mutable)
    {
      this.kind := kind;
      intValue := 0;
      floatValue := Float(0);
      refValue := None;
      mutateCnt := MutateCnt(mutable);
    }

    method GetInt() returns (r: Result<int>)
      ensures IntKind(kind) ==> r == Ok(intValue)
      ensures !IntKind(kind) ==> r == Err(LogicException(NOT_INT))
    {
      if kind != "i" && kind != "I" {
        return Err(LogicException(NOT_INT));
      }
      r := Ok(intValue);
    }

    method GetFloat() returns (r: Result<Float>)
      ensures FloatKind(kind) ==> r == Ok(floatValue)
      ensures !FloatKind(kind) ==> r == Err(LogicException(NOT_FLOAT))
    {
      if kind != "f" && kind != "F" {
        return Err(LogicException(NOT_FLOAT));
      }
      r := Ok(floatValue);
    }

    method GetRef() returns (r: Result<Store.Slot>)
      ensures RefKind(kind) ==> r == Ok(refValue)
      ensures !RefKind(kind) ==> r == Err(LogicException(NOT_REF))
    {
      if kind != "r" {
        return Err(LogicException(NOT_REF));
      }
      r := Ok(refValue);
    }

    /** The count step shared by the setters; a refused set changes nothing. */
    method CountSet() returns (r: Result<()>)
      modifies this
      ensures Mutated(old(mutateCnt)).Err? ==> r == Err(Mutated(old(mutateCnt)).error) && mutateCnt == old(mutateCnt)
      ensures Mutated(old(mutateCnt)).Ok? ==> r == Ok(()) && mutateCnt == Mutated(old(mutateCnt)).value
      ensures intValue == old(intValue) && floatValue == old(floatValue) && refValue == old(refValue)
    {
      if mutateCnt == Some(0) {
        return Err(LogicException(IMMUTABLE));
      } else if mutateCnt.Some? {
        mutateCnt := Some(mutateCnt.value - 1);
      }
      r := Ok(());
    }

    /** Stores an int: a wrong kind throws before the count is looked at,
        and a refused set changes nothing. */
    method SetInt(value: int) returns (r: Result<()>)
      modifies this
      ensures !IntKind(kind) ==> r == Err(LogicException(NOT_INT)) && mutateCnt == old(mutateCnt) && intValue == old(intValue)
      ensures IntKind(kind) && Mutated(old(mutateCnt)).Err? ==>
        r == Err(LogicException(IMMUTABLE)) && mutateCnt == old(mutateCnt) && intValue == old(intValue)
      ensures IntKind(kind) && Mutated(old(mutateCnt)).Ok? ==>
        r == Ok(()) && mutateCnt == Mutated(old(mutateCnt)).value && intValue == value
      ensures floatValue == old(floatValue) && refValue == old(refValue)
    {
      if kind != "i" && kind != "I" {
        return Err(LogicException(NOT_INT));
      }
      r := CountSet();
      if r.Ok? {
        intValue := value;
      }
    }

    /** Stores a float, as SetInt does for ints. */
    method SetFloat(value: Float) returns (r: Result<()>)
      modifies this
      ensures !FloatKind(kind) ==> r == Err(LogicException(NOT_FLOAT)) && mutateCnt == old(mutateCnt) && floatValue == old(floatValue)
      ensures FloatKind(kind) && Mutated(old(mutateCnt)).Err? ==>
        r == Err(LogicException(IMMUTABLE)) && mutateCnt == old(mutateCnt) && floatValue == old(floatValue)
      ensures FloatKind(kind) && Mutated(old(mutateCnt)).Ok? ==>
        r == Ok(()) && mutateCnt == Mutated(old(mutateCnt)).value && floatValue == value
      ensures intValue == old(intValue) && refValue == old(refValue)
    {
      if kind != "f" && kind != "F" {
        return Err(LogicException(NOT_FLOAT));
      }
      r := CountSet();
      if r.Ok? {
        floatValue := value;
      }
    }

    /** Stores a callable reference, as SetInt does for ints. */
    method SetRef(value: Store.Slot) returns (r: Result<()>)
      modifies this
      ensures !RefKind(kind) ==> r == Err(LogicException(NOT_REF)) && mutateCnt == old(mutateCnt) && refValue == old(refValue)
      ensures RefKind(kind) && Mutated(old(mutateCnt)).Err? ==>
        r == Err(LogicException(IMMUTABLE)) && mutateCnt == old(mutateCnt) && refValue == old(refValue)
      ensures RefKind(kind) && Mutated(old(mutateCnt)).Ok? ==>
        r == Ok(()) && mutateCnt == Mutated(old(mutateCnt)).value && refValue == value
      ensures intValue == old(intValue) && floatValue == old(floatValue)
    {
      if kind != "r" {
        return Err(LogicException(NOT_REF));
      }
      r := CountSet();
      if r.Ok? {
        refValue := value;
      }
    }
  }
}

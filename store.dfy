/** The runtime table and memory instances the generated code calls into
    (src/Runtime/TableInst.php and src/Runtime/MemoryInst.php, namespace
    UnWasm\Store): a table of callables that grows by slots, and a byte
    buffer that grows by 64 KiB pages. */
module Store {
  import opened Exceptions
  import opened Token
  import Text

  /** A callable a table slot or a global holds: a handle, since the
      containers only store it. */
  datatype Callable = Callable(handle: nat)

  /** A table slot, `?callable`. */
  type Slot = Option<Callable>

  // ---------------------------------------------------------------------
  // writing a run of values at an offset

  /** `s` with `data` written from `offset` on, and the rest as it was. */
  function Overwritten<T>(s: seq<T>, data: seq<T>, offset: nat): (r: seq<T>)
    requires offset + |data| <= |s|
  {
    s[..offset] + data + s[offset + |data|..]
  }

  /** Slot by slot: the written run reads back as `data`, every other slot
      keeps its value, and the length does not change. */
  lemma OverwrittenAt<T>(s: seq<T>, data: seq<T>, offset: nat, i: nat)
    requires offset + |data| <= |s| && i < |s|
    ensures |Overwritten(s, data, offset)| == |s|
    ensures Overwritten(s, data, offset)[i] == if offset <= i < offset + |data| then data[i - offset] else s[i]
  {
  }

  /** A sequence that agrees slot by slot with the overwrite is the
      overwrite. */
  lemma OverwrittenPointwise<T>(s: seq<T>, data: seq<T>, offset: nat, t: seq<T>)
    requires offset + |data| <= |s| && |t| == |s|
    requires forall i :: 0 <= i < |t| ==> t[i] == if offset <= i < offset + |data| then data[i - offset] else s[i]
    ensures t == Overwritten(s, data, offset)
  {
    forall i | 0 <= i < |t|
      ensures t[i] == Overwritten(s, data, offset)[i]
    {
      OverwrittenAt(s, data, offset, i);
    }
  }

  /** The written run reads back exactly. */
  lemma OverwrittenSlice<T>(s: seq<T>, data: seq<T>, offset: nat)
    requires offset + |data| <= |s|
    ensures Overwritten(s, data, offset)[offset..offset + |data|] == data
  {
  }

  /** Growth limits: refused only under a maximum that the new size would
      pass (TableInst::grow). */
  predicate GrowRejected(prev: nat, n: nat, maximum: Option<int>) {
    maximum.Some? && prev + n > maximum.value
  }

  // ---------------------------------------------------------------------
  // the table

  class TableInst {
    /** the largest size the table may grow to, if any */
    const maximum: Option<int>
    /** the slots */
    var contents: seq<Slot>

    /** A table of `minimum` null slots, or an empty one when `minimum`
        already passes the maximum (the constructor's grow is refused). */
    constructor(minimum: nat, maximum: Option<int>)
      ensures this.maximum == maximum
      ensures contents == if GrowRejected(0, minimum, maximum) then [] else Text.Repeat(None, minimum)
    {
      this.maximum := maximum;
      contents := [];
      new;
      var _ := Grow(minimum, None);
    }

    /** The slot at `offset`, or OutOfBoundsException past the end. */
    method Get(offset: nat) returns (r: Result<Slot>)
      ensures offset < |contents| ==> r == Ok(contents[offset])
      ensures offset >= |contents| ==> r == Err(OutOfBoundsException)
    {
      if offset >= |contents| {
        return Err(OutOfBoundsException);
      }
      r := Ok(contents[offset]);
    }

    /** Stores `value` at `offset` and changes no other slot; past the end
        it throws and changes nothing. */
    method Set(value: Slot, offset: nat) returns (r: Result<()>)
      modifies this
      ensures offset < old(|contents|) ==> r == Ok(()) && contents == old(contents)[offset := value]
      ensures offset >= old(|contents|) ==> r == Err(OutOfBoundsException) && contents == old(contents)
    {
      if offset >= |contents| {
        return Err(OutOfBoundsException);
      }
      contents := contents[offset := value];
      r := Ok(());
    }

    /** The number of slots. */
    method Size() returns (n: nat)
      ensures n == |contents|
    {
      n := |contents|;
    }

    /** Appends `n` copies of `init` and answers the previous size, or
        answers -1 and changes nothing when the maximum would be passed. */
    method Grow(n: nat, init: Slot) returns (r: int)
      modifies this
      ensures GrowRejected(old(|contents|), n, maximum) ==> r == -1 && contents == old(contents)
      ensures !GrowRejected(old(|contents|), n, maximum) ==>
        r == old(|contents|) && contents == old(contents) + Text.Repeat(init, n)
    {
      var prev := |contents|;
      if maximum.Some? && prev + n > maximum.value {
        return -1;
      }
      contents := contents + Text.Repeat(init, n);
      r := prev;
    }

    /** Sets the `n` slots from `offset` on to `value`, one at a time; a run
        past the end throws and changes nothing. */
    method Fill(n: nat, value: Slot, offset: nat) returns (r: Result<()>)
      modifies this
      ensures offset + n <= old(|contents|) ==>
        r == Ok(()) && contents == Overwritten(old(contents), Text.Repeat(value, n), offset)
      ensures offset + n > old(|contents|) ==> r == Err(OutOfBoundsException) && contents == old(contents)
    {
      if offset + n > |contents| {
        return Err(OutOfBoundsException);
      }
      for i := offset to offset + n
        invariant |contents| == old(|contents|)
        invariant forall k :: 0 <= k < |contents| ==>
          contents[k] == if offset <= k < i then value else old(contents)[k]
      {
        contents := contents[i := value];
      }
      OverwrittenPointwise(old(contents), Text.Repeat(value, n), offset, contents);
      r := Ok(());
    }

    /** Writes `data[i]` to slot `offset + i` for each i, one at a time; a
        run past the end throws and changes nothing. */
    method Overwrite(data: seq<Slot>, offset: nat) returns (r: Result<()>)
      modifies this
      ensures offset + |data| <= old(|contents|) ==>
        r == Ok(()) && contents == Overwritten(old(contents), data, offset)
      ensures offset + |data| > old(|contents|) ==> r == Err(OutOfBoundsException) && contents == old(contents)
    {
      if offset + |data| > |contents| {
        return Err(OutOfBoundsException);
      }
      for i := 0 to |data|
        invariant |contents| == old(|contents|)
        invariant forall k :: 0 <= k < |contents| ==>
          contents[k] == if offset <= k < offset + i then data[k - offset] else old(contents)[k]
      {
        contents := contents[offset + i := data[i]];
      }
      OverwrittenPointwise(old(contents), data, offset, contents);
      r := Ok(());
    }

    /** Copies `n` slots from `sourceOffset` of this table to `destOffset`
        of `dest`, which may be this table: the run is sliced off before
        any slot is written. Either run past its table's end throws and
        changes nothing. */
    method Copy(dest: TableInst, sourceOffset: nat, destOffset: nat, n: nat) returns (r: Result<()>)
      modifies dest
      ensures sourceOffset + n <= old(|contents|) && destOffset + n <= old(|dest.contents|) ==>
        r == Ok(()) && dest.contents == Overwritten(old(dest.contents), old(contents)[sourceOffset..sourceOffset + n], destOffset)
      ensures sourceOffset + n > old(|contents|) || destOffset + n > old(|dest.contents|) ==>
        r == Err(OutOfBoundsException) && dest.contents == old(dest.contents)
      ensures dest != this ==> contents == old(contents)
    {
      if sourceOffset + n > |contents| || destOffset + n > |dest.contents| {
        return Err(OutOfBoundsException);
      }
      r := dest.Overwrite(contents[sourceOffset..sourceOffset + n], destOffset);
    }
  }

  /** After a copy, the destination run holds the source run as it was
      before the copy, and the destination's other slots are unchanged. */
  lemma CopiedRun(source: seq<Slot>, dest: seq<Slot>, sourceOffset: nat, destOffset: nat, n: nat, i: nat)
    requires sourceOffset + n <= |source| && destOffset + n <= |dest| && i < |dest|
    ensures var after := Overwritten(dest, source[sourceOffset..sourceOffset + n], destOffset);
      after[i] == if destOffset <= i < destOffset + n then source[sourceOffset + i - destOffset] else dest[i]
  {
    OverwrittenAt(dest, source[sourceOffset..sourceOffset + n], destOffset, i);
  }

  // ---------------------------------------------------------------------
  // the memory

  /** MemoryInst::PAGE_SIZE */
  const PAGE_SIZE: nat := 65536

  /** `str_repeat(chr(0), n)` */
  function Zeros(n: nat): (r: seq<byte>)
    ensures |r| == n && forall i :: 0 <= i < n ==> r[i] == 0
  {
    seq(n, _ => 0 as byte)
  }

  lemma ZerosAppend(a: nat, b: nat)
    ensures Zeros(a) + Zeros(b) == Zeros(a + b)
  {
  }

  /** `str_repeat(chr($value % 256), $n)`. PHP's `%` truncates toward zero,
      and `chr` keeps the low eight bits of what it is given, so the byte
      is `value` modulo 256 for every sign. */
  function FillBytes(value: int, n: nat): (r: seq<byte>)
    ensures |r| == n && forall i :: 0 <= i < n ==> r[i] == value % 256
  {
    seq(n, _ => (value % 256) as byte)
  }

  /** `fseek($stream, $offset)` then `fread($stream, $n)`: the stored bytes
      from `offset`, as many of `n` as there are. */
  function ReadAt(s: seq<byte>, offset: nat, n: nat): (r: seq<byte>)
    ensures offset + n <= |s| ==> r == s[offset..offset + n]
    ensures |r| <= n
  {
    var from := if offset <= |s| then offset else |s|;
    var to := if offset + n <= |s| then offset + n else |s|;
    s[from..to]
  }

  /** A write reads back: `read` of the range just written gives the data. */
  lemma WriteThenRead(s: seq<byte>, data: seq<byte>, offset: nat)
    requires offset + |data| <= |s|
    ensures ReadAt(Overwritten(s, data, offset), offset, |data|) == data
  {
    OverwrittenSlice(s, data, offset);
  }

  /** A write leaves the bytes outside its range as they were. */
  lemma WriteKeepsOthers(s: seq<byte>, data: seq<byte>, offset: nat, i: nat)
    requires offset + |data| <= |s| && i < |s| && (i < offset || i >= offset + |data|)
    ensures Overwritten(s, data, offset)[i] == s[i]
  {
    OverwrittenAt(s, data, offset, i);
  }

  /** The limit check of MemoryInst::grow as written, `$prev + $pages >
      $this->maximum`: with no maximum PHP compares against null as
      booleans, so any growth to a non-zero size is refused. */
  predicate MemoryGrowRejectedAsWritten(prev: nat, pages: nat, maximum: Option<int>) {
    if maximum.None? then prev + pages != 0 else prev + pages > maximum.value
  }

  /** A memory without a maximum never grows as written, while the table's
      check that the memory evidently shares lets it grow. */
  lemma UnboundedGrowRefusedAsWritten(prev: nat, pages: nat)
    requires prev + pages > 0
    ensures MemoryGrowRejectedAsWritten(prev, pages, None)
    ensures !GrowRejected(prev, pages, None)
  {
  }

  /** Under a maximum the two checks agree. */
  lemma BoundedGrowAgrees(prev: nat, pages: nat, maximum: int)
    ensures MemoryGrowRejectedAsWritten(prev, pages, Some(maximum)) <==> GrowRejected(prev, pages, Some(maximum))
  {
  }

  /** The bounds check of MemoryInst::copy as written: the destination run
      is measured against the size in pages instead of bytes. */
  predicate CopyRejectedAsWritten(sourceOffset: nat, destOffset: nat, n: nat, pages: nat) {
    sourceOffset + n > pages * PAGE_SIZE || destOffset + n > pages
  }

  /** Both runs measured against the size in bytes. */
  predicate CopyRejected(sourceOffset: nat, destOffset: nat, n: nat, pages: nat) {
    sourceOffset + n > pages * PAGE_SIZE || destOffset + n > pages * PAGE_SIZE
  }

  /** As written, a one-byte copy to offset 2 of a one-page memory throws
      although both runs lie inside the memory. */
  lemma InBoundsCopyRefusedAsWritten()
    ensures CopyRejectedAsWritten(0, 2, 1, 1) && !CopyRejected(0, 2, 1, 1)
  {
  }

  /** The check as written refuses every copy the corrected one refuses:
      it never lets an out-of-bounds copy through. */
  lemma CopyCheckStricterAsWritten(sourceOffset: nat, destOffset: nat, n: nat, pages: nat)
    ensures CopyRejected(sourceOffset, destOffset, n, pages) ==> CopyRejectedAsWritten(sourceOffset, destOffset, n, pages)
  {
  }

  class MemoryInst {
    /** the largest number of pages the memory may grow to, if any */
    const maximum: Option<int>
    /** the contents of the php://temp buffer */
    var bytes: seq<byte>
    /** the number of allocated pages */
    var size: nat

    /** The buffer holds exactly the allocated pages. */
    ghost predicate Valid()
      reads this
    {
      |bytes| == size * PAGE_SIZE
    }

    /** A memory of `minimum` zeroed pages, or of none when the first grow
        is refused. */
    constructor(minimum: nat, maximum: Option<int>)
      ensures Valid() && this.maximum == maximum
      ensures size == (if GrowRejected(0, minimum, maximum) then 0 else minimum)
      ensures bytes == Zeros(size * PAGE_SIZE)
    {
      this.maximum := maximum;
      bytes := [];
      size := 0;
      new;
      var _ := Grow(minimum);
    }

    /** The number of allocated pages, which the buffer's length measures. */
    method Size() returns (n: nat)
      requires Valid()
      ensures n == size && n * PAGE_SIZE == |bytes|
    {
      n := size;
    }

    /** Appends `pages` zeroed pages, one fwrite at a time, and answers the
        previous size; answers -1 and changes nothing when the maximum would
        be passed. */
    method Grow(pages: nat) returns (r: int)
      requires Valid()
      modifies this
      ensures Valid()
      ensures GrowRejected(old(size), pages, maximum) ==> r == -1 && bytes == old(bytes) && size == old(size)
      ensures !GrowRejected(old(size), pages, maximum) ==>
        r == old(size) && size == old(size) + pages && bytes == old(bytes) + Zeros(pages * PAGE_SIZE)
    {
      var prev := size;
      if maximum.Some? && prev + pages > maximum.value {
        return -1;
      }
      var emptyPage := Zeros(PAGE_SIZE);
      for i := 0 to pages
        invariant size == prev && bytes == old(bytes) + Zeros(i * PAGE_SIZE)
      {
        ZerosAppend(i * PAGE_SIZE, PAGE_SIZE);
        assert (i + 1) * PAGE_SIZE == i * PAGE_SIZE + PAGE_SIZE;
        bytes := bytes + emptyPage;
      }
      assert (prev + pages) * PAGE_SIZE == prev * PAGE_SIZE + pages * PAGE_SIZE;
      size := size + pages;
      r := prev;
    }

    /** Writes `n` copies of the byte `value % 256` from `offset` on. */
    method Fill(n: nat, value: int, offset: nat) returns (r: Result<()>)
      requires Valid()
      modifies this
      ensures Valid() && size == old(size)
      ensures offset + n <= size * PAGE_SIZE ==> r == Ok(()) && bytes == Overwritten(old(bytes), FillBytes(value, n), offset)
      ensures offset + n > size * PAGE_SIZE ==> r == Err(OutOfBoundsException) && bytes == old(bytes)
    {
      var data := FillBytes(value, n);
      r := Write(data, offset);
    }

    /** Overwrites the bytes from `offset` on with `data`; a run past the
        last page throws and changes nothing. */
    method Write(data: seq<byte>, offset: nat) returns (r: Result<()>)
      requires Valid()
      modifies this
      ensures Valid() && size == old(size)
      ensures offset + |data| <= size * PAGE_SIZE ==> r == Ok(()) && bytes == Overwritten(old(bytes), data, offset)
      ensures offset + |data| > size * PAGE_SIZE ==> r == Err(OutOfBoundsException) && bytes == old(bytes)
    {
      if offset + |data| > size * PAGE_SIZE {
        return Err(OutOfBoundsException);
      }
      bytes := Overwritten(bytes, data, offset);
      r := Ok(());
    }

    /** The bytes from `offset` on, as many of `n` as the buffer holds: the
        read itself is not bounds-checked. */
    method Read(offset: nat, n: nat) returns (r: seq<byte>)
      ensures r == ReadAt(bytes, offset, n)
    {
      var from := if offset <= |bytes| then offset else |bytes|;
      var to := if offset + n <= |bytes| then offset + n else |bytes|;
      r := bytes[from..to];
    }

    /** Copies `n` bytes from `sourceOffset` to `destOffset` through a read
        and a write, so overlapping runs copy as if through a buffer; when
        either run passes the last page it throws and changes nothing. */
    method Copy(sourceOffset: nat, destOffset: nat, n: nat) returns (r: Result<()>)
      requires Valid()
      modifies this
      ensures Valid() && size == old(size)
      ensures !CopyRejected(sourceOffset, destOffset, n, size) ==>
        r == Ok(()) && bytes == Overwritten(old(bytes), old(bytes)[sourceOffset..sourceOffset + n], destOffset)
      ensures CopyRejected(sourceOffset, destOffset, n, size) ==> r == Err(OutOfBoundsException) && bytes == old(bytes)
    {
      if sourceOffset + n > size * PAGE_SIZE || destOffset + n > size * PAGE_SIZE {
        return Err(OutOfBoundsException);
      }
      var data := Read(sourceOffset, n);
      r := Write(data, destOffset);
    }
  }
}

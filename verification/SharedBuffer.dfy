/** The growable and shrinkable byte buffer: one value per state, the transitions between them,
    and the classes that perform them in place. */
module SharedBuffer {
  import opened Options
  import opened Capacity

  newtype byte = b: int | 0 <= b < 0x100

  const SIZE_T_RANGE: nat := 0x1_0000_0000_0000_0000
  const PTRDIFF_MAX: nat := 0x7FFF_FFFF_FFFF_FFFF

  type size_t = n: nat | n < SIZE_T_RANGE

  /** `Block` holds the whole allocation and the logical size within it. */
  datatype Buffer = Null | Block(raw: seq<byte>, size: nat)

  function Size(b: Buffer): nat {
    if b.Null? then 0 else b.size
  }

  function Allocated(b: Buffer): nat {
    if b.Null? then 0 else |b.raw|
  }

  ghost predicate WellFormed(b: Buffer) {
    && Size(b) <= Allocated(b) <= PTRDIFF_MAX
    && (Size(b) > 0 ==> Allocated(b) <= 2 * Size(b))
    && (b.Block? ==> Allocated(b) > 0)
  }

  /** The logical contents. */
  function Contents(b: Buffer): seq<byte>
    requires WellFormed(b)
  {
    if b.Null? then [] else b.raw[..b.size]
  }

  function Zeros(n: nat): (z: seq<byte>)
    ensures |z| == n && forall i | 0 <= i < n :: z[i] == 0
  {
    seq(n, _ => 0)
  }

  function Min(a: nat, b: nat): nat { if a < b then a else b }

  /** Whether `malloc(n)` succeeds; it never does beyond PTRDIFF_MAX. */
  predicate MallocSucceeds(n: nat, memory: bool) {
    memory && n <= PTRDIFF_MAX
  }

  /** The test that makes `resetSize` reallocate; the doubling is size_t arithmetic. */
  predicate Reallocates(b: Buffer, size: size_t) {
    b.Block? && (2 * size % SIZE_T_RANGE < |b.raw| || size > |b.raw|)
  }

  /** The conversion to `int` on the reallocation path must be defined. */
  predicate Defined(b: Buffer, size: size_t) {
    size > 0 && Reallocates(b, size) ==> CastDefined(size)
  }

  /** `SharedBufferImpl::resetSize`. */
  function Resized(b: Buffer, size: size_t, keepContent: bool, memory: bool): (Buffer, bool)
    requires WellFormed(b) && Defined(b, size)
  {
    if size == 0 then
      (if b.Null? then b else b.(size := 0), b.Block?)
    else if b.Null? then
      if MallocSucceeds(size, memory) then (Block(Zeros(size), size), true) else (Null, false)
    else if Reallocates(b, size) then
      NewSizeBounds(size);
      if !MallocSucceeds(NewSize(size), memory) then (b, false)
      else
        var kept := if keepContent then b.raw[..Min(size, b.size)] else [];
        (Block(kept + Zeros(NewSize(size) - |kept|), size), true)
    else
      (b.(size := size), true)
  }

  /** Bytes moved to a new allocation by `resetSize`. */
  function Copied(b: Buffer, size: size_t, keepContent: bool, memory: bool): nat
    requires WellFormed(b) && Defined(b, size)
  {
    if size > 0 && Reallocates(b, size) && keepContent && MallocSucceeds(NewSize(size), memory)
    then Min(size, Size(b)) else 0
  }

  /** `SharedBuffer::ensureCapacity` on an existing object. */
  function Ensured(b: Buffer, size: size_t, memory: bool): (Buffer, bool)
    requires WellFormed(b) && Defined(b, size)
  {
    if Size(b) < size then Resized(b, size, true, memory) else (b, true)
  }

  // ---------- one call ----------

  /** The wrap-around of the doubling never matters: the reallocation test is the unbounded one. */
  lemma ReallocatesUnbounded(b: Buffer, size: size_t)
    requires WellFormed(b)
    ensures Reallocates(b, size) <==> b.Block? && (2 * size < |b.raw| || size > |b.raw|)
  {
  }

  /** When a call can be undefined: it reallocates to a size from 1610612672 on. */
  lemma UndefinedIff(b: Buffer, size: size_t)
    requires WellFormed(b)
    ensures !Defined(b, size) <==> b.Block? && size >= 1610612672 && (2 * size < |b.raw| || size > |b.raw|)
  {
    if size > 0 { CastDefinedBelow(size); }
  }

  /** Every call leaves an allocation that holds the logical size; after a success with a
      non-zero size the allocation is at most twice that size. */
  lemma ResizeCapacity(b: Buffer, size: size_t, keepContent: bool, memory: bool)
    requires WellFormed(b) && Defined(b, size)
    ensures var (b', ok) := Resized(b, size, keepContent, memory);
            && WellFormed(b')
            && (ok ==> Size(b') == size)
            && (ok && size > 0 ==> size <= Allocated(b') <= 2 * size)
            && (!ok ==> Size(b') == (if size == 0 then 0 else Size(b)) && Allocated(b') == Allocated(b))
  {
    if size > 0 { NewSizeBounds(size); }
  }

  /** A failed call changes nothing; size 0 "fails" exactly when nothing is allocated. */
  lemma FailureChangesNothing(b: Buffer, size: size_t, keepContent: bool, memory: bool)
    requires WellFormed(b) && Defined(b, size)
    requires !Resized(b, size, keepContent, memory).1
    ensures Resized(b, size, keepContent, memory).0 == b
    ensures size == 0 ==> b == Null
    ensures size > 0 && memory ==> b == Null && size > PTRDIFF_MAX
  {
    if size > 0 && b.Block? {
      CastDefinedBelow(size);
      NewSizeBounds(size);
    }
  }

  /** When a resize succeeds, exactly: to size 0 if something is allocated, and to any other size if it
      fits in place or there is memory. */
  lemma SucceedsIff(b: Buffer, size: size_t, keepContent: bool, memory: bool)
    requires WellFormed(b) && Defined(b, size)
    ensures Resized(b, size, keepContent, memory).1
            <==> if size == 0 then b.Block?
                 else (b.Block? && size <= |b.raw| <= 2 * size) || (memory && size <= PTRDIFF_MAX)
  {
    ReallocatesUnbounded(b, size);
    if size > 0 {
      CastDefinedBelow(size);
      NewSizeBounds(size);
    }
  }

  /** `v` cut or padded with zeros to length `n`. */
  function Extend(v: seq<byte>, n: nat): seq<byte> {
    if n <= |v| then v[..n] else v + Zeros(n - |v|)
  }

  /** The first min(old, new) bytes survive a resize that keeps the content. */
  lemma PrefixPreserved(b: Buffer, size: size_t, memory: bool)
    requires WellFormed(b) && Defined(b, size)
    ensures var (b', ok) := Resized(b, size, true, memory);
            var m := Min(Size(b), Size(b'));
            WellFormed(b') && Contents(b')[..m] == Contents(b)[..m]
  {
    ResizeCapacity(b, size, true, memory);
    if size > 0 { NewSizeBounds(size); }
  }

  /** Bytes of the allocation that a larger logical size would expose. */
  ghost predicate ZeroBetween(b: Buffer, from: nat, to: nat)
    requires b.Block?
  {
    forall i | from <= i < to && i < |b.raw| :: b.raw[i] == 0
  }

  /** In place, growing shows what the allocation holds. */
  lemma InPlaceExtendsIff(b: Buffer, size: size_t)
    requires WellFormed(b) && b.Block? && b.size < size <= |b.raw|
    ensures b.raw[..size] == Extend(Contents(b), size) <==> ZeroBetween(b, b.size, size)
  {
    var e := Extend(Contents(b), size);
    if b.raw[..size] == e {
      forall i | b.size <= i < size && i < |b.raw| ensures b.raw[i] == 0 {
        assert b.raw[..size][i] == e[i];
      }
    }
  }

  /** A successful resize that keeps the content acts as on a vector padded with zeros if and
      only if it allocates, or no stale byte lies in the part it exposes. */
  lemma ResizeExtendsIff(b: Buffer, size: size_t, memory: bool)
    requires WellFormed(b) && Defined(b, size) && Resized(b, size, true, memory).1
    ensures var b' := Resized(b, size, true, memory).0;
            WellFormed(b') &&
            (Contents(b') == Extend(Contents(b), size)
             <==> b.Null? || Reallocates(b, size) || ZeroBetween(b, b.size, size))
  {
    ResizeCapacity(b, size, true, memory);
    if size > 0 { NewSizeBounds(size); }
    if b.Block? && !Reallocates(b, size) && size > b.size { InPlaceExtendsIff(b, size); }
  }

  /** A successful resize that does not keep the content, to a non-zero size: the contents are all
      zero if and only if it allocates, or the bytes it leaves in place were zero already; and after
      an allocation the spare bytes are zero too. */
  lemma ClearsIff(b: Buffer, size: size_t, memory: bool)
    requires WellFormed(b) && Defined(b, size) && size > 0 && Resized(b, size, false, memory).1
    ensures var b' := Resized(b, size, false, memory).0;
            && WellFormed(b') && b'.Block? && |Contents(b')| == size
            && (Contents(b') == Zeros(size) <==> b.Null? || Reallocates(b, size) || ZeroBetween(b, 0, size))
            && (b.Null? || Reallocates(b, size) ==> ZeroBetween(b', 0, |b'.raw|))
  {
    ResizeCapacity(b, size, false, memory);
    NewSizeBounds(size);
    if b.Block? && !Reallocates(b, size) {
      ResizeInPlace(b, size, false, memory);
      if b.raw[..size] == Zeros(size) {
        forall i | 0 <= i < size && i < |b.raw| ensures b.raw[i] == 0 { assert b.raw[..size][i] == Zeros(size)[i]; }
      }
    }
  }

  /** Hysteresis: after a reallocation to m bytes, resizing to n reallocates again if and only if n is
      outside of 2/3 to 4/3 of m; after a first allocation of m, outside of m/2 to m. */
  lemma Hysteresis(b: Buffer, m: size_t, n: size_t, keepContent: bool, memory: bool)
    requires WellFormed(b) && 0 < m < 6291456 && Defined(b, m) && Resized(b, m, keepContent, memory).1
    ensures WellFormed(Resized(b, m, keepContent, memory).0)
    ensures var b' := Resized(b, m, keepContent, memory).0;
            && (Reallocates(b, m) ==> (Reallocates(b', n) <==> 2 * n < 4 * m / 3 || n > 4 * m / 3))
            && (b.Null? ==> (Reallocates(b', n) <==> 2 * n < m || n > m))
  {
    ResizeCapacity(b, m, keepContent, memory);
    NewSizeExact(m);
    ReallocatesUnbounded(Resized(b, m, keepContent, memory).0, n);
  }

  /** `ensureCapacity`: it fails exactly when the buffer stays smaller than asked for; a buffer that is
      large enough is left as it is; and what was there is still there, followed by zeros if new
      memory was allocated. */
  lemma EnsureMeans(b: Buffer, size: size_t, memory: bool)
    requires WellFormed(b) && Defined(b, size)
    ensures var (b', ok) := Ensured(b, size, memory);
            && WellFormed(b') && (ok <==> Size(b') >= size)
            && Size(b') == (if ok && size > Size(b) then size else Size(b))
            && (Size(b) >= size || !ok ==> b' == b)
            && Contents(b) <= Contents(b')
            && (b.Null? || Reallocates(b, size) ==> Contents(b') == Extend(Contents(b), Size(b')))
  {
    if Size(b) < size {
      ResizeCapacity(b, size, true, memory);
      PrefixPreserved(b, size, memory);
      if Resized(b, size, true, memory).1 {
        ResizeExtendsIff(b, size, memory);
      } else {
        FailureChangesNothing(b, size, true, memory);
      }
    }
  }

  /** Without a reallocation only the logical size changes. */
  lemma ResizeInPlace(b: Buffer, size: size_t, keepContent: bool, memory: bool)
    requires WellFormed(b) && b.Block? && size > 0 && !Reallocates(b, size)
    ensures Defined(b, size) && Resized(b, size, keepContent, memory) == (Block(b.raw, size), true)
  {
  }

  /** Shrinking and growing back within the allocation shows the old bytes again: of n bytes
      allocated and written the last is cut off, and comes back where a vector has a zero. */
  lemma StaleBytes(n: size_t, v: seq<byte>)
    requires 2 <= n <= PTRDIFF_MAX && |v| == n && v[n - 1] != 0
    ensures Defined(Null, n) && Resized(Null, n, true, true) == (Block(Zeros(n), n), true)
    ensures var full := Block(v, n);
            WellFormed(full) && Defined(full, n - 1) && Resized(full, n - 1, true, true) == (Block(v, n - 1), true)
    ensures var cut := Block(v, n - 1);
            && WellFormed(cut) && Defined(cut, n) && Resized(cut, n, true, true) == (Block(v, n), true)
            && Contents(Block(v, n)) == v != Extend(Contents(cut), n)
  {
    var cut := Block(v, n - 1);
    ResizeInPlace(Block(v, n), n - 1, true, true);
    ResizeInPlace(cut, n, true, true);
    assert Extend(Contents(cut), n)[n - 1] == 0;
  }

  /** `ensureCapacity` shrinks the allocation exactly when the buffer has been emptied and is
      asked for less than half of what it still holds; never that of a non-empty buffer. */
  lemma EnsureShrinksIff(b: Buffer, size: size_t, memory: bool)
    requires WellFormed(b) && Defined(b, size)
    ensures var (b', ok) := Ensured(b, size, memory);
            && WellFormed(b') && (ok ==> Size(b') >= size)
            && (Allocated(b') < Allocated(b) <==> b.Block? && b.size == 0 && 0 < 2 * size < Allocated(b) && memory)
  {
    if Size(b) < size {
      ResizeCapacity(b, size, true, memory);
      ReallocatesUnbounded(b, size);
      NewSizeBounds(size);
      CastDefinedBelow(size);
    }
  }

  // ---------- the classes ----------

  /** A new allocation with the first `n` bytes of `from` and zeros after them: `memcpy`
      followed by `memset`. */
  method CopyAndClear(from: array<byte>, n: nat, newSize: nat) returns (to: array<byte>)
    requires n <= from.Length && n <= newSize
    ensures fresh(to) && to[..] == from[..n] + Zeros(newSize - n)
  {
    to := new byte[newSize](_ => 0);
    forall i | 0 <= i < n {
      to[i] := from[i];
    }
  }

  /** The fill of an allocation that is about to be freed. */
  method Poison(a: array<byte>)
    modifies a
    ensures forall i | 0 <= i < a.Length :: a[i] == 0xCC
  {
    forall i | 0 <= i < a.Length {
      a[i] := 0xCC;
    }
  }

  class SharedBufferImpl {
    var mBuffer: array?<byte>
    var mSize: nat
    var mActualSize: nat
    ghost var mCopied: nat   // all bytes memcpy has moved so far

    ghost predicate Valid()
      reads this, mBuffer
    {
      && (mBuffer == null ==> mSize == 0 && mActualSize == 0)
      && (mBuffer != null ==> mActualSize == mBuffer.Length)
      && WellFormed(View())
    }

    ghost function View(): Buffer
      reads this, mBuffer
    {
      if mBuffer == null then Null else Block(mBuffer[..], mSize)
    }

    constructor ()
      ensures Valid() && View() == Null && mCopied == 0
    {
      mBuffer, mSize, mActualSize, mCopied := null, 0, 0, 0;
    }

    method Reset()
      requires Valid()
      modifies this
      ensures Valid() && View() == Null && mCopied == old(mCopied)
    {
      if mBuffer != null {
        mBuffer, mSize, mActualSize := null, 0, 0;
      }
    }

    /** The move to new memory inside `resetSize`. */
    method Move(size: size_t, keepContent: bool, newSize: nat)
      requires Valid() && mBuffer != null && 0 < size <= newSize <= 2 * size && newSize <= PTRDIFF_MAX
      modifies this, mBuffer
      ensures Valid() && mBuffer != null && fresh(mBuffer)
      ensures var kept := old(if keepContent then mBuffer[..Min(size, mSize)] else []);
              View() == Block(kept + Zeros(newSize - |kept|), size)
      ensures forall i | 0 <= i < old(mBuffer).Length :: old(mBuffer)[i] == 0xCC
      ensures mCopied == old(mCopied) + if keepContent then Min(size, old(mSize)) else 0
    {
      var cpSize := if keepContent then Min(size, mSize) else 0;
      var newBuffer := CopyAndClear(mBuffer, cpSize, newSize);
      mCopied := mCopied + cpSize;
      Poison(mBuffer);
      mBuffer, mActualSize, mSize := newBuffer, newSize, size;
    }

    /** The reallocation inside `resetSize`. */
    method Reallocate(size: size_t, keepContent: bool, memory: bool) returns (ok: bool)
      requires Valid() && size > 0 && Reallocates(View(), size) && CastDefined(size)
      modifies this, mBuffer
      ensures Valid() && (View(), ok) == Resized(old(View()), size, keepContent, memory)
      ensures if ok then mBuffer != null && fresh(mBuffer) else mBuffer == old(mBuffer)
      ensures forall i | 0 <= i < old(mBuffer).Length ::
                old(mBuffer)[i] == if ok then 0xCC else old(mBuffer[i])
      ensures mCopied == old(mCopied) + Copied(old(View()), size, keepContent, memory)
    {
      var newSize := NewSize(size);
      NewSizeBounds(size);
      ok := MallocSucceeds(newSize, memory);
      if ok { Move(size, keepContent, newSize); }
    }

    /** The first allocation inside `resetSize`. */
    method Allocate(size: size_t)
      requires mBuffer == null && 0 < size <= PTRDIFF_MAX
      modifies this
      ensures Valid() && mBuffer != null && fresh(mBuffer) && View() == Block(Zeros(size), size)
      ensures mCopied == old(mCopied)
    {
      mBuffer := new byte[size](_ => 0);
      mSize, mActualSize := size, size;
      assert mBuffer[..] == Zeros(size);
    }

    /** A replaced allocation is filled with 0xCC before it is freed; any other is untouched. */
    method ResetSize(size: size_t, keepContent: bool, memory: bool) returns (ok: bool)
      requires Valid() && Defined(View(), size)
      modifies this, mBuffer
      ensures Valid() && (View(), ok) == Resized(old(View()), size, keepContent, memory)
      ensures mBuffer == old(mBuffer) || fresh(mBuffer)
      ensures mBuffer != null && mBuffer == old(mBuffer) ==> mBuffer[..] == old(mBuffer[..])
      ensures old(mBuffer) != null && mBuffer != old(mBuffer) ==>
                forall i | 0 <= i < old(mBuffer).Length :: old(mBuffer)[i] == 0xCC
      ensures mCopied == old(mCopied) + Copied(old(View()), size, keepContent, memory)
    {
      if size == 0 {
        mSize := 0;
        ok := mBuffer != null;
      } else if mBuffer != null {
        if 2 * size % SIZE_T_RANGE < mActualSize || size > mActualSize {
          ok := Reallocate(size, keepContent, memory);
        } else {
          ReallocatesUnbounded(View(), size);
          ResizeInPlace(View(), size, keepContent, memory);
          mSize, ok := size, true;
        }
      } else {
        ok := MallocSucceeds(size, memory);
        if ok { Allocate(size); }
      }
    }

    /** A write through the pointer that `get()` returns, below the logical size. */
    method Write(i: nat, value: byte)
      requires Valid() && i < mSize
      modifies mBuffer
      ensures Valid() && View() == Written(old(View()), i, value)
    {
      mBuffer[i] := value;
    }
  }

  function Written(b: Buffer, i: nat, value: byte): Buffer
    requires WellFormed(b) && i < Size(b)
  {
    b.(raw := b.raw[i := value])
  }

  /** A handle. Copying a handle shares the object; `Copy` does not. */
  class SharedBuffer {
    var pImpl: SharedBufferImpl?

    ghost predicate Valid()
      reads this, pImpl, if pImpl == null then {} else {pImpl.mBuffer}
    {
      pImpl != null ==> pImpl.Valid()
    }

    ghost function View(): Buffer
      reads this, pImpl, if pImpl == null then {} else {pImpl.mBuffer}
    {
      if pImpl == null then Null else pImpl.View()
    }

    constructor ()
      ensures Valid() && pImpl == null
    {
      pImpl := null;
    }

    constructor Share(o: SharedBuffer)
      ensures pImpl == o.pImpl
    {
      pImpl := o.pImpl;
    }

    method EnsureCapacity(size: size_t, memory: bool) returns (ok: bool)
      requires Valid() && Defined(View(), size)
      modifies this, pImpl, if pImpl == null then {} else {pImpl.mBuffer}
      ensures Valid() && pImpl != null && (pImpl == old(pImpl) || (old(pImpl) == null && fresh(pImpl)))
      ensures pImpl.mBuffer == null || fresh(pImpl.mBuffer)
              || pImpl.mBuffer == old(if pImpl == null then null else pImpl.mBuffer)
      ensures (View(), ok) == if old(pImpl) == null then Resized(Null, size, false, memory)
                              else Ensured(old(View()), size, memory)
    {
      if pImpl == null {
        pImpl := new SharedBufferImpl();
        ok := pImpl.ResetSize(size, false, memory);
      } else if pImpl.mSize < size {
        ok := pImpl.ResetSize(size, true, memory);
      } else {
        ok := true;
      }
    }

    /** A deep copy: the same contents in an object of its own. None stands for `bad_alloc`. */
    method Copy(memory: bool) returns (r: Option<SharedBuffer>)
      requires Valid()
      ensures r.None? <==> Size(View()) > 0 && !MallocSucceeds(Size(View()), memory)
      ensures r.Some? ==>
                && fresh(r.value) && r.value.Valid() && Contents(r.value.View()) == Contents(View())
                && (r.value.pImpl != null ==> fresh(r.value.pImpl))
                && (r.value.pImpl != null && r.value.pImpl.mBuffer != null ==> fresh(r.value.pImpl.mBuffer))
    {
      var other := new SharedBuffer();
      if pImpl != null && pImpl.mBuffer != null && pImpl.mSize > 0 {
        var n := pImpl.mSize;
        var ok := other.EnsureCapacity(n, memory);
        if !ok {
          return None;
        }
        assert other.View() == Block(Zeros(n), n);
        var src, dst := pImpl.mBuffer, other.pImpl.mBuffer;
        forall i | 0 <= i < n {
          dst[i] := src[i];
        }
        assert dst[..] == src[..n];
      }
      return Some(other);
    }

    method ToVector() returns (v: seq<byte>)
      requires Valid()
      ensures v == Contents(View())
    {
      if pImpl != null && pImpl.mBuffer != null {
        v := pImpl.mBuffer[..pImpl.mSize];
      } else {
        v := [];
      }
    }
  }
}

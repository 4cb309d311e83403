/** Whole histories of one buffer object: the cost of its reallocations, and when a history
    implements a byte vector that grows by zeros. */
module BufferRuns {
  import opened Capacity
  import opened SharedBuffer

  datatype Op =
    | Resize(size: size_t, keepContent: bool, memory: bool)
    | Ensure(size: size_t, memory: bool)
    | Write(index: nat, value: byte)
    | Reset

  ghost predicate Allowed(b: Buffer, op: Op)
    requires WellFormed(b)
  {
    match op
    case Resize(size, _, _) => Defined(b, size)
    case Ensure(size, _) => Defined(b, size)
    case Write(i, _) => i < Size(b)
    case Reset => true
  }

  ghost function Step(b: Buffer, op: Op): (b': Buffer)
    requires WellFormed(b) && Allowed(b, op)
    ensures WellFormed(b')
  {
    match op
    case Resize(size, keep, memory) => ResizeCapacity(b, size, keep, memory); Resized(b, size, keep, memory).0
    case Ensure(size, memory) => ResizeCapacity(b, size, true, memory); Ensured(b, size, memory).0
    case Write(i, v) => Written(b, i, v)
    case Reset => Null
  }

  /** Every operation of the history is allowed where it happens. */
  ghost predicate Run(b: Buffer, ops: seq<Op>)
    requires WellFormed(b)
    decreases ops
  {
    ops != [] ==> Allowed(b, ops[0]) && Run(Step(b, ops[0]), ops[1..])
  }

  ghost function After(b: Buffer, ops: seq<Op>): (b': Buffer)
    requires WellFormed(b) && Run(b, ops)
    ensures WellFormed(b')
    decreases ops
  {
    if ops == [] then b else After(Step(b, ops[0]), ops[1..])
  }

  // ---------- amortised cost ----------

  ghost function StepCost(b: Buffer, op: Op): nat
    requires WellFormed(b) && Allowed(b, op)
  {
    match op
    case Resize(size, keep, memory) => Copied(b, size, keep, memory)
    case Ensure(size, memory) => if Size(b) < size then Copied(b, size, true, memory) else 0
    case _ => 0
  }

  function Distance(a: nat, b: nat): nat { if a < b then b - a else a - b }

  /** All bytes the reallocations of the history copy. */
  ghost function TotalCopied(b: Buffer, ops: seq<Op>): nat
    requires WellFormed(b) && Run(b, ops)
    decreases ops
  {
    if ops == [] then 0 else StepCost(b, ops[0]) + TotalCopied(Step(b, ops[0]), ops[1..])
  }

  /** The total absolute change of the logical size. */
  ghost function TotalChange(b: Buffer, ops: seq<Op>): nat
    requires WellFormed(b) && Run(b, ops)
    decreases ops
  {
    if ops == [] then 0
    else Distance(Size(b), Size(Step(b, ops[0]))) + TotalChange(Step(b, ops[0]), ops[1..])
  }

  predicate SmallSize(op: Op) {
    match op
    case Resize(size, _, _) => size < 6291456
    case Ensure(size, _) => size < 6291456
    case _ => true
  }

  /** Twice the work saved up at logical size `s` in an allocation of `a` bytes, where new
      allocations are exactly 4/3 of the size: nothing right after a reallocation, then 4 for
      each byte grown and 2 for each byte shrunk. */
  function Saved4(s: nat, a: nat): nat {
    if s == 0 then 0
    else if 4 * s >= 3 * a then 8 * s - 6 * a
    else 3 * a - 4 * s
  }

  /** 100000 times the work saved up, for any rounding: 4.00001 for each byte grown and 2.2 for
      each byte shrunk, outside the sizes a reallocation can leave behind. */
  function SavedAny(s: nat, a: nat): nat {
    if s == 0 then 0
    else if 400001 * s >= 300001 * a then 400001 * s - 300001 * a
    else if 220000 * s <= 160000 * a then 160000 * a - 220000 * s
    else 0
  }

  /** A new allocation of a' bytes for size m: 4/3 up to a relative error of 2^-21 and the
      truncation. */
  predicate CloseToThirds(m: nat, a': nat) {
    0x20_0000 * 3 * a' <= 0x20_0001 * 4 * m && 0x1F_FFFF * 4 * m <= 0x20_0000 * (3 * a' + 3)
  }

  /** Size and allocation before a reallocation to size m. */
  ghost predicate Moves(s: nat, a: nat, m: nat) {
    && s <= a && (s > 0 ==> a <= 2 * s)
    && m > 0 && (2 * m < a || m > a)
  }

  lemma ReallocationPays4(s: nat, a: nat, m: nat, a': nat)
    requires Moves(s, a, m) && 3 * a' <= 4 * m <= 3 * a' + 2
    ensures 2 * Min(m, s) + Saved4(m, a') <= 8 * Distance(s, m) + Saved4(s, a)
  {
  }

  /** What a reallocation leaves saved up is at most 3.00001 for the truncation. */
  lemma SavedAfter(m: nat, a': nat)
    requires CloseToThirds(m, a') && m > 0
    ensures SavedAny(m, a') <= 300001
  {
  }

  lemma ReallocationPaysAny(s: nat, a: nat, m: nat, a': nat)
    requires Moves(s, a, m) && CloseToThirds(m, a')
    ensures 100000 * Min(m, s) + SavedAny(m, a') <= 400001 * Distance(s, m) + SavedAny(s, a)
  {
    SavedAfter(m, a');
    if m > a {
      assert 100000 * s + 300001 <= 400001 * (m - s) + SavedAny(s, a);
    } else if s > 0 {
      assert 100000 * m + 300001 <= 400001 * (s - m) + SavedAny(s, a);
    }
  }

  lemma StayingPays(s: nat, a: nat, m: nat)
    requires s <= a && m <= a && (s > 0 ==> a <= 2 * s) && (m > 0 ==> a <= 2 * m)
    ensures Saved4(m, a) <= 8 * Distance(s, m) + Saved4(s, a)
    ensures SavedAny(m, a) <= 400001 * Distance(s, m) + SavedAny(s, a)
  {
  }

  /** The four ways a resize from size s in a bytes to size s' in a' bytes can go, and what it
      copies: nothing happens, a first allocation, a change of size in place, a reallocation. */
  ghost predicate Shape(s: nat, a: nat, s': nat, a': nat, copied: nat, newSize: nat) {
    || (copied == 0 && s' == s && a' == a)
    || (copied == 0 && s == a == 0 && s' == a')
    || (copied == 0 && a' == a && s <= a && s' <= a && (s > 0 ==> a <= 2 * s) && (s' > 0 ==> a <= 2 * s'))
    || (Moves(s, a, s') && copied <= Min(s', s) && a' == newSize)
  }

  lemma ResizeShape(b: Buffer, size: size_t, keep: bool, memory: bool)
    requires WellFormed(b) && Defined(b, size)
    ensures var b' := Resized(b, size, keep, memory).0;
            Shape(Size(b), Allocated(b), Size(b'), Allocated(b'), Copied(b, size, keep, memory),
                  if size > 0 then NewSize(size) else 0)
  {
    ResizeCapacity(b, size, keep, memory);
    if size > 0 { NewSizeBounds(size); }
    ReallocatesUnbounded(b, size);
  }

  lemma ShapePays4(s: nat, a: nat, s': nat, a': nat, copied: nat, newSize: nat)
    requires Shape(s, a, s', a', copied, newSize)
    requires Moves(s, a, s') && a' == newSize ==> 3 * newSize <= 4 * s' <= 3 * newSize + 2
    ensures 2 * copied + Saved4(s', a') <= 8 * Distance(s, s') + Saved4(s, a)
  {
    if Moves(s, a, s') && a' == newSize { ReallocationPays4(s, a, s', a'); }
    if s <= a && s' <= a && (s > 0 ==> a <= 2 * s) && (s' > 0 ==> a <= 2 * s') { StayingPays(s, a, s'); }
  }

  lemma ShapePaysAny(s: nat, a: nat, s': nat, a': nat, copied: nat, newSize: nat)
    requires Shape(s, a, s', a', copied, newSize)
    requires Moves(s, a, s') && a' == newSize ==> CloseToThirds(s', newSize)
    ensures 100000 * copied + SavedAny(s', a') <= 400001 * Distance(s, s') + SavedAny(s, a)
  {
    if Moves(s, a, s') && a' == newSize { ReallocationPaysAny(s, a, s', a'); }
    if s <= a && s' <= a && (s > 0 ==> a <= 2 * s) && (s' > 0 ==> a <= 2 * s') { StayingPays(s, a, s'); }
  }

  function SavedIn4(b: Buffer): nat { Saved4(Size(b), Allocated(b)) }

  function SavedInAny(b: Buffer): nat { SavedAny(Size(b), Allocated(b)) }

  lemma ExactThirds(size: nat)
    requires 0 < size < 6291456
    ensures 3 * NewSize(size) <= 4 * size <= 3 * NewSize(size) + 2
  {
    NewSizeExact(size);
  }

  lemma ResizePays(b: Buffer, size: size_t, keep: bool, memory: bool)
    requires WellFormed(b) && Defined(b, size)
    ensures var b' := Resized(b, size, keep, memory).0;
            var c, d := Copied(b, size, keep, memory), Distance(Size(b), Size(b'));
            && (size < 6291456 ==> 2 * c + SavedIn4(b') <= 8 * d + SavedIn4(b))
            && 100000 * c + SavedInAny(b') <= 400001 * d + SavedInAny(b)
  {
    ResizeShape(b, size, keep, memory);
    ResizeCapacity(b, size, keep, memory);
    var b' := Resized(b, size, keep, memory).0;
    var s, a, s', a', c := Size(b), Allocated(b), Size(b'), Allocated(b'), Copied(b, size, keep, memory);
    var n := if size > 0 then NewSize(size) else 0;
    if s' == size && size > 0 {
      NewSizeClose(size);
      if size < 6291456 { ExactThirds(size); }
    }
    if s' == size || !Moves(s, a, s') {
      if size < 6291456 { ShapePays4(s, a, s', a', c, n); }
      ShapePaysAny(s, a, s', a', c, n);
    }
  }

  lemma StepPays(b: Buffer, op: Op)
    requires WellFormed(b) && Allowed(b, op)
    ensures var b' := Step(b, op);
            var c, d := StepCost(b, op), Distance(Size(b), Size(b'));
            && (SmallSize(op) ==> 2 * c + SavedIn4(b') <= 8 * d + SavedIn4(b))
            && 100000 * c + SavedInAny(b') <= 400001 * d + SavedInAny(b)
  {
    match op {
      case Resize(size, keep, memory) => ResizePays(b, size, keep, memory);
      case Ensure(size, memory) => ResizePays(b, size, true, memory);
      case _ =>
    }
  }

  lemma {:induction false} RunPays4(b: Buffer, ops: seq<Op>)
    requires WellFormed(b) && Run(b, ops) && forall op | op in ops :: SmallSize(op)
    ensures 2 * TotalCopied(b, ops) + SavedIn4(After(b, ops)) <= 8 * TotalChange(b, ops) + SavedIn4(b)
    decreases ops
  {
    if ops != [] {
      assert SmallSize(ops[0]);
      StepPays(b, ops[0]);
      RunPays4(Step(b, ops[0]), ops[1..]);
    }
  }

  lemma {:induction false} RunPaysAny(b: Buffer, ops: seq<Op>)
    requires WellFormed(b) && Run(b, ops)
    ensures 100000 * TotalCopied(b, ops) + SavedInAny(After(b, ops)) <= 400001 * TotalChange(b, ops) + SavedInAny(b)
    decreases ops
  {
    if ops != [] {
      StepPays(b, ops[0]);
      RunPaysAny(Step(b, ops[0]), ops[1..]);
    }
  }

  /** Over every history of a buffer object with sizes below 6291456, reallocation copies at
      most four times the total change of the logical size. */
  lemma AmortisedCost(ops: seq<Op>)
    requires Run(Null, ops) && forall op | op in ops :: SmallSize(op)
    ensures TotalCopied(Null, ops) <= 4 * TotalChange(Null, ops)
  {
    RunPays4(Null, ops);
  }

  /** Over every history whatsoever, float rounding included, at most 4.00001 times. */
  lemma AmortisedCostAnySize(ops: seq<Op>)
    requires Run(Null, ops)
    ensures 100000 * TotalCopied(Null, ops) <= 400001 * TotalChange(Null, ops)
  {
    RunPaysAny(Null, ops);
  }

  function Grow(size: size_t): Op { Resize(size, true, true) }

  lemma Prepend(b: Buffer, op: Op, rest: seq<Op>)
    requires WellFormed(b) && Allowed(b, op) && Run(Step(b, op), rest)
    ensures Run(b, [op] + rest)
    ensures TotalCopied(b, [op] + rest) == StepCost(b, op) + TotalCopied(Step(b, op), rest)
    ensures TotalChange(b, [op] + rest) == Distance(Size(b), Size(Step(b, op))) + TotalChange(Step(b, op), rest)
  {
    assert ([op] + rest)[1..] == rest;
  }

  lemma Fill(b: Buffer, a: size_t)
    requires WellFormed(b) && 0 < Size(b) && a == Allocated(b)
    ensures Allowed(b, Grow(a)) && StepCost(b, Grow(a)) == 0
    ensures Size(Step(b, Grow(a))) == Allocated(Step(b, Grow(a))) == a
  {
    ReallocatesUnbounded(b, a);
  }

  lemma GrowFull(b: Buffer, a: size_t)
    requires WellFormed(b) && 0 < Size(b) == Allocated(b) == a < 6000000
    ensures Allowed(b, Grow(a + 1)) && StepCost(b, Grow(a + 1)) == a
    ensures Size(Step(b, Grow(a + 1))) == a + 1 && Allocated(Step(b, Grow(a + 1))) == 4 * (a + 1) / 3
  {
    NewSizeExact(a + 1);
    UndefinedIff(b, a + 1);
    assert Reallocates(b, a + 1);
    assert MallocSucceeds(NewSize(a + 1), true);
  }

  /** Some history from here copies `copied` bytes and changes the size by `change` in all. */
  ghost predicate Costs(b: Buffer, copied: nat, change: nat)
    requires WellFormed(b)
  {
    exists ops :: Run(b, ops) && TotalCopied(b, ops) == copied && TotalChange(b, ops) == change
  }

  lemma CostsPrepend(b: Buffer, op: Op, copied: nat, change: nat)
    requires WellFormed(b) && Allowed(b, op) && Costs(Step(b, op), copied, change)
    ensures Costs(b, StepCost(b, op) + copied, Distance(Size(b), Size(Step(b, op))) + change)
  {
    var b' := Step(b, op);
    var ops :| Run(b', ops) && TotalCopied(b', ops) == copied && TotalChange(b', ops) == change;
    Prepend(b, op, ops);
  }

  /** One round: fill the allocation of a bytes, then ask for one byte more. */
  lemma GrowthRound(b: Buffer, a: size_t) returns (b': Buffer)
    requires WellFormed(b) && 0 < Size(b) && Allocated(b) == a < 6000000
    ensures WellFormed(b') && Size(b') == a + 1 && Allocated(b') == 4 * (a + 1) / 3
    ensures forall copied: nat, change: nat | Costs(b', copied, change) ::
              Costs(b, a + copied, a + 1 - Size(b) + change)
  {
    Fill(b, a);
    var b1 := Step(b, Grow(a));
    GrowFull(b1, a);
    b' := Step(b1, Grow(a + 1));
    forall copied: nat, change: nat | Costs(b', copied, change)
      ensures Costs(b, a + copied, a + 1 - Size(b) + change)
    {
      CostsPrepend(b1, Grow(a + 1), copied, change);
      CostsPrepend(b, Grow(a), a + copied, 1 + change);
    }
  }

  lemma First1000()
    ensures Allowed(Null, Grow(1000)) && StepCost(Null, Grow(1000)) == 0
    ensures Size(Step(Null, Grow(1000))) == Allocated(Step(Null, Grow(1000))) == 1000
  {
  }

  /** Four cannot be replaced by three: growing from 1000 bytes by filling the allocation and
      asking for one byte more, five times, copies 9654 bytes and ends at 3167. */
  lemma ThreeTimesIsNotEnough()
    ensures exists ops :: Run(Null, ops) && TotalCopied(Null, ops) > 3 * TotalChange(Null, ops)
  {
    First1000();
    var b0 := Step(Null, Grow(1000));
    var b1 := GrowthRound(b0, 1000);
    var b2 := GrowthRound(b1, 1334);
    var b3 := GrowthRound(b2, 1780);
    var b4 := GrowthRound(b3, 2374);
    var b5 := GrowthRound(b4, 3166);
    assert Run(b5, []) && TotalCopied(b5, []) == 0 && TotalChange(b5, []) == 0;
    assert Costs(b5, 0, 0);
    assert Costs(b4, 3166, 792);
    assert Costs(b3, 5540, 1386);
    assert Costs(b2, 7320, 1832);
    assert Costs(b1, 8654, 2166);
    assert Costs(b0, 9654, 2167);
    CostsPrepend(Null, Grow(1000), 9654, 2167);
    var ops :| Run(Null, ops) && TotalCopied(Null, ops) == 9654 && TotalChange(Null, ops) == 3167;
  }

  // ---------- histories and the vector ----------

  /** Resizes keep the content and do not shrink; any `ensureCapacity`; writes below the size. */
  ghost predicate GrowOnly(b: Buffer, ops: seq<Op>)
    requires WellFormed(b) && Run(b, ops)
    decreases ops
  {
    ops != [] ==>
      && (ops[0].Resize? ==> ops[0].keepContent && ops[0].size >= Size(b))
      && !ops[0].Reset?
      && GrowOnly(Step(b, ops[0]), ops[1..])
  }

  /** The same operation on a plain vector: growing appends zeros. A failed allocation is an
      operation that does not happen. */
  ghost function VectorStep(v: seq<byte>, b: Buffer, op: Op): seq<byte>
    requires WellFormed(b) && Allowed(b, op)
  {
    match op
    case Resize(size, _, memory) =>
      if Resized(b, size, true, memory).1 then Extend(v, size) else v
    case Ensure(size, memory) =>
      if |v| < size && Resized(b, size, true, memory).1 then Extend(v, size) else v
    case Write(i, x) => if i < |v| then v[i := x] else v
    case Reset => []
  }

  ghost function Vector(v: seq<byte>, b: Buffer, ops: seq<Op>): seq<byte>
    requires WellFormed(b) && Run(b, ops)
    decreases ops
  {
    if ops == [] then v
    else Vector(VectorStep(v, b, ops[0]), Step(b, ops[0]), ops[1..])
  }

  ghost predicate ZeroTail(b: Buffer) {
    b.Block? ==> forall i | b.size <= i < |b.raw| :: b.raw[i] == 0
  }

  lemma GrowExtends(b: Buffer, size: size_t, memory: bool)
    requires WellFormed(b) && Defined(b, size) && size >= Size(b) && ZeroTail(b)
    ensures var (b', ok) := Resized(b, size, true, memory);
            && WellFormed(b') && ZeroTail(b')
            && Contents(b') == if ok then Extend(Contents(b), size) else Contents(b)
  {
    ResizeCapacity(b, size, true, memory);
    if size > 0 { NewSizeBounds(size); }
    if Resized(b, size, true, memory).1 {
      ResizeExtendsIff(b, size, memory);
    }
  }

  /** Shrinking to `size` moves to a new allocation, or the bytes it cuts off are all zero. */
  ghost predicate CutsCleanly(b: Buffer, size: size_t)
    requires WellFormed(b)
  {
    (size > 0 && Reallocates(b, size)) || forall i | size <= i < Size(b) :: Contents(b)[i] == 0
  }

  lemma CutInPlace(b: Buffer, size: nat)
    requires WellFormed(b) && b.Block? && size < b.size && ZeroTail(b)
    ensures ZeroTail(Block(b.raw, size)) <==> forall i | size <= i < Size(b) :: Contents(b)[i] == 0
  {
    if ZeroTail(Block(b.raw, size)) {
      forall i | size <= i < Size(b) ensures Contents(b)[i] == 0 { assert b.raw[i] == 0; }
    } else {
      var i :| size <= i < |b.raw| && b.raw[i] != 0;
      assert Contents(b)[i] != 0;
    }
  }

  lemma ShrinkCuts(b: Buffer, size: size_t, memory: bool)
    requires WellFormed(b) && Defined(b, size) && size < Size(b) && ZeroTail(b)
    ensures var (b', ok) := Resized(b, size, true, memory);
            && WellFormed(b')
            && Contents(b') == (if ok then Extend(Contents(b), size) else Contents(b))
            && (ok ==> (ZeroTail(b') <==> CutsCleanly(b, size)))
            && (!ok ==> ZeroTail(b'))
  {
    ResizeCapacity(b, size, true, memory);
    if size > 0 && Reallocates(b, size) {
      NewSizeBounds(size);
    } else {
      assert Resized(b, size, true, memory) == (Block(b.raw, size), true);
      CutInPlace(b, size);
    }
  }

  /** Every resize keeps the content, and those that shrink cut cleanly. */
  ghost predicate Clean(b: Buffer, ops: seq<Op>)
    requires WellFormed(b) && Run(b, ops)
    decreases ops
  {
    ops != [] ==>
      && (ops[0].Resize? ==> ops[0].keepContent && (ops[0].size < Size(b) ==> CutsCleanly(b, ops[0].size)))
      && Clean(Step(b, ops[0]), ops[1..])
  }

  lemma CleanStep(b: Buffer, op: Op)
    requires WellFormed(b) && Allowed(b, op) && ZeroTail(b)
    requires op.Resize? ==> op.keepContent && (op.size < Size(b) ==> CutsCleanly(b, op.size))
    ensures ZeroTail(Step(b, op)) && Contents(Step(b, op)) == VectorStep(Contents(b), b, op)
  {
    match op {
      case Resize(size, _, memory) =>
        if size < Size(b) { ShrinkCuts(b, size, memory); } else { GrowExtends(b, size, memory); }
      case Ensure(size, memory) => if Size(b) < size { GrowExtends(b, size, memory); }
      case Write(i, x) => assert Contents(Step(b, op)) == Contents(b)[i := x];
      case Reset =>
    }
  }

  /** Every clean history implements the vector: the contents agree with it after any number of
      operations, and the spare bytes stay zero. */
  lemma {:induction false} CleanIsVector(b: Buffer, ops: seq<Op>)
    requires WellFormed(b) && Run(b, ops) && Clean(b, ops) && ZeroTail(b)
    ensures Contents(After(b, ops)) == Vector(Contents(b), b, ops)
    ensures ZeroTail(After(b, ops))
    decreases ops
  {
    if ops != [] {
      CleanStep(b, ops[0]);
      CleanIsVector(Step(b, ops[0]), ops[1..]);
    }
  }

  /** Growing from here on always acts as on the vector. */
  ghost predicate GrowsAsVector(b: Buffer)
    requires WellFormed(b)
  {
    forall ops | Run(b, ops) && GrowOnly(b, ops) :: Contents(After(b, ops)) == Vector(Contents(b), b, ops)
  }

  lemma GrowsAsVectorIff(b: Buffer)
    requires WellFormed(b)
    ensures GrowsAsVector(b) <==> ZeroTail(b)
  {
    if ZeroTail(b) {
      forall ops | Run(b, ops) && GrowOnly(b, ops) ensures Contents(After(b, ops)) == Vector(Contents(b), b, ops) {
        GrowOnlyIsVector(b, ops);
      }
    } else {
      var all := Grow(|b.raw|);
      ReallocatesUnbounded(b, |b.raw|);
      var full := Step(b, all);
      assert full == Block(b.raw, |b.raw|);
      var ops := [all];
      assert ops[1..] == [];
      assert Run(full, []) && GrowOnly(full, []) && After(full, []) == full;
      assert Run(b, ops) && GrowOnly(b, ops);
      var i :| b.size <= i < |b.raw| && b.raw[i] != 0;
      assert After(b, ops) == full;
      assert Contents(full)[i] != 0 == Extend(Contents(b), |b.raw|)[i];
      assert Vector(Contents(b), b, ops) == Extend(Contents(b), |b.raw|);
    }
  }

  /** Shrinking, exactly: after a successful shrink of a buffer whose spare bytes are zero, growing
      acts as on the vector if and only if the shrink moved to a new allocation or cut off zeros
      only. */
  lemma ShrinkForgetsIff(b: Buffer, size: size_t, memory: bool)
    requires WellFormed(b) && ZeroTail(b) && Defined(b, size) && size < Size(b)
    requires Resized(b, size, true, memory).1
    ensures WellFormed(Resized(b, size, true, memory).0)
    ensures GrowsAsVector(Resized(b, size, true, memory).0) <==> CutsCleanly(b, size)
  {
    ShrinkCuts(b, size, memory);
    GrowsAsVectorIff(Resized(b, size, true, memory).0);
  }

  lemma {:induction false} GrowOnlyIsClean(b: Buffer, ops: seq<Op>)
    requires WellFormed(b) && Run(b, ops) && GrowOnly(b, ops)
    ensures Clean(b, ops)
    decreases ops
  {
    if ops != [] { GrowOnlyIsClean(Step(b, ops[0]), ops[1..]); }
  }

  /** A grow-only history implements the zero-extending vector: the contents agree with it after
      any number of operations, and the spare bytes stay zero. */
  lemma GrowOnlyIsVector(b: Buffer, ops: seq<Op>)
    requires WellFormed(b) && Run(b, ops) && GrowOnly(b, ops) && ZeroTail(b)
    ensures Contents(After(b, ops)) == Vector(Contents(b), b, ops)
    ensures ZeroTail(After(b, ops))
  {
    GrowOnlyIsClean(b, ops);
    CleanIsVector(b, ops);
  }
}

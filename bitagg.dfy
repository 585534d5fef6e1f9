/**
 * The BIT_AND, BIT_OR and BIT_XOR aggregates.  All three share one state,
 * `{is_set, value}`, and one state machine; they differ only in the bitwise
 * operator that folds a new input into the value.
 *
 * Values are carried as bit patterns in a `Bits`: a TINYINT, SMALLINT,
 * INTEGER or BIGINT input is its two's-complement pattern zero-extended to
 * 128 bits, a HUGEINT input is its full pattern.  AND, OR and XOR act bit by
 * bit, so the pattern of the result is the same whether the operands are read
 * as signed inputs or as the unsigned state of the same width.
 */
module BitAggregates {
  import opened Wrappers

  datatype BitOperation = BitAnd | BitOr | BitXor

  /**
   * The bits of a state or input value, laid out as a `hugeint_t`: an upper
   * and a lower 64-bit word.  A TINYINT, SMALLINT, INTEGER or BIGINT value is
   * its two's-complement pattern zero-extended into the lower word.
   */
  datatype Bits = Bits(upper: bv64, lower: bv64)

  function AndWord(a: bv64, b: bv64): bv64 { a & b }
  function OrWord(a: bv64, b: bv64): bv64 { a | b }
  function XorWord(a: bv64, b: bv64): bv64 { a ^ b }

  /** The operator of each aggregate on one 64-bit word. */
  function ApplyWord(op: BitOperation, a: bv64, b: bv64): bv64
  {
    match op
    case BitAnd => AndWord(a, b)
    case BitOr => OrWord(a, b)
    case BitXor => XorWord(a, b)
  }

  /** The operator each aggregate folds with (`&=`, `|=`, `^=`), word by word. */
  function Apply(op: BitOperation, a: Bits, b: Bits): Bits
  {
    Bits(ApplyWord(op, a.upper, b.upper), ApplyWord(op, a.lower, b.lower))
  }

  lemma AndWordLaws(a: bv64, b: bv64, c: bv64)
    ensures AndWord(AndWord(a, b), c) == AndWord(a, AndWord(b, c))
    ensures AndWord(AndWord(a, b), b) == AndWord(a, b)
  {
  }

  lemma OrWordLaws(a: bv64, b: bv64, c: bv64)
    ensures OrWord(OrWord(a, b), c) == OrWord(a, OrWord(b, c))
    ensures OrWord(OrWord(a, b), b) == OrWord(a, b)
  {
  }

  lemma XorWordLaws(a: bv64, b: bv64, c: bv64)
    ensures XorWord(XorWord(a, b), c) == XorWord(a, XorWord(b, c))
    ensures XorWord(XorWord(a, b), b) == a && XorWord(b, b) == 0
  {
  }

  lemma ApplyWordAssociative(op: BitOperation, a: bv64, b: bv64, c: bv64)
    ensures ApplyWord(op, ApplyWord(op, a, b), c) == ApplyWord(op, a, ApplyWord(op, b, c))
  {
    match op
    case BitAnd => AndWordLaws(a, b, c);
    case BitOr => OrWordLaws(a, b, c);
    case BitXor => XorWordLaws(a, b, c);
  }

  lemma ApplyAssociative(op: BitOperation, a: Bits, b: Bits, c: Bits)
    ensures Apply(op, Apply(op, a, b), c) == Apply(op, a, Apply(op, b, c))
  {
    ApplyWordAssociative(op, a.upper, b.upper, c.upper);
    ApplyWordAssociative(op, a.lower, b.lower, c.lower);
  }

  /** BIT_AND and BIT_OR absorb a repeated operand. */
  lemma ApplyIdempotent(op: BitOperation, a: Bits, b: Bits)
    requires op != BitXor
    ensures Apply(op, Apply(op, a, b), b) == Apply(op, a, b)
  {
    if op == BitAnd {
      AndWordLaws(a.upper, b.upper, 0);
      AndWordLaws(a.lower, b.lower, 0);
    } else {
      OrWordLaws(a.upper, b.upper, 0);
      OrWordLaws(a.lower, b.lower, 0);
    }
  }

  /** BIT_XOR cancels a repeated operand. */
  lemma XorCancels(a: Bits, b: Bits)
    ensures Apply(BitXor, Apply(BitXor, a, b), b) == a
    ensures Apply(BitXor, b, b) == Bits(0, 0)
  {
    XorWordLaws(a.upper, b.upper, 0);
    XorWordLaws(a.lower, b.lower, 0);
  }

  // ---------------------------------------------------------------------
  // Widths

  /** The integral SQL types and the rest. */
  datatype LogicalTypeId = TinyInt | SmallInt | Integer | BigInt | HugeInt | OtherType(name: string)

  predicate IsIntegral(t: LogicalTypeId)
  {
    t.TinyInt? || t.SmallInt? || t.Integer? || t.BigInt? || t.HugeInt?
  }

  /** Number of bits of the C++ type an integral SQL type is stored in. */
  function InputBits(t: LogicalTypeId): nat
    requires IsIntegral(t)
  {
    match t
    case TinyInt => 8
    case SmallInt => 16
    case Integer => 32
    case BigInt => 64
    case HugeInt => 128
  }

  /** The bits of the lower word at or above position `width` (for width < 64). */
  function HighMask(width: nat): bv64
  {
    if width == 8 then 0xFFFF_FFFF_FFFF_FF00
    else if width == 16 then 0xFFFF_FFFF_FFFF_0000
    else if width == 32 then 0xFFFF_FFFF_0000_0000
    else 0
  }

  /** `v` is a pattern of `width` bits. */
  predicate Fits(v: Bits, width: nat)
  {
    width >= 128 || (v.upper == 0 && AndWord(v.lower, HighMask(width)) == 0)
  }

  lemma AndWordFits(a: bv64, b: bv64, m: bv64)
    requires a & m == 0 && b & m == 0
    ensures (a & b) & m == 0
  {
  }

  lemma OrWordFits(a: bv64, b: bv64, m: bv64)
    requires a & m == 0 && b & m == 0
    ensures (a | b) & m == 0
  {
  }

  lemma XorWordFits(a: bv64, b: bv64, m: bv64)
    requires a & m == 0 && b & m == 0
    ensures (a ^ b) & m == 0
  {
  }

  lemma ApplyWordFits(op: BitOperation, a: bv64, b: bv64, m: bv64)
    requires AndWord(a, m) == 0 && AndWord(b, m) == 0
    ensures AndWord(ApplyWord(op, a, b), m) == 0
  {
    match op
    case BitAnd => AndWordFits(a, b, m);
    case BitOr => OrWordFits(a, b, m);
    case BitXor => XorWordFits(a, b, m);
  }

  /** The fold keeps a pattern within the width of its operands. */
  lemma ApplyFits(op: BitOperation, a: Bits, b: Bits, width: nat)
    requires Fits(a, width) && Fits(b, width)
    ensures Fits(Apply(op, a, b), width)
  {
    if width < 128 {
      ApplyWordFits(op, a.upper, b.upper, 0xFFFF_FFFF_FFFF_FFFF);
      ApplyWordFits(op, a.lower, b.lower, HighMask(width));
    }
  }

  // ---------------------------------------------------------------------
  // The type table

  datatype AggregateError = NotImplemented(message: string)

  /** One registered overload: the operator, its state width, its argument and result type. */
  datatype AggregateFunction = AggregateFunction(
    op: BitOperation, stateBits: nat, argumentType: LogicalTypeId, returnType: LogicalTypeId)

  /** GetBitfieldUnaryAggregate: the overload of an aggregate for one argument type. */
  function GetBitfieldUnaryAggregate(op: BitOperation, t: LogicalTypeId): (r: Result<AggregateFunction, AggregateError>)
    ensures r.Success? <==> IsIntegral(t)
    ensures r.Success? ==>
      r.value.op == op && r.value.stateBits == InputBits(t) && r.value.argumentType == t && r.value.returnType == t
    ensures r.Failure? ==> r.error == NotImplemented("Unimplemented bitfield type for unary aggregate")
  {
    match t
    case TinyInt => Success(AggregateFunction(op, 8, t, t))
    case SmallInt => Success(AggregateFunction(op, 16, t, t))
    case Integer => Success(AggregateFunction(op, 32, t, t))
    case BigInt => Success(AggregateFunction(op, 64, t, t))
    case HugeInt => Success(AggregateFunction(op, 128, t, t))
    case OtherType(_) => Failure(NotImplemented("Unimplemented bitfield type for unary aggregate"))
  }

  // ---------------------------------------------------------------------
  // The abstract state and its specification

  /** The value of a `bit_state_t`: unset (no row seen) or set to a pattern. */
  datatype BitValue = Unset | Set(value: Bits)

  const ZERO := Bits(0, 0)

  /** One Operation on the abstract state. */
  function Step(op: BitOperation, s: BitValue, x: Bits): BitValue
  {
    match s
    case Unset => Set(x)
    case Set(v) => Set(Apply(op, v, x))
  }

  /** The state after Operation on each of `xs` in order. */
  function Update(op: BitOperation, s: BitValue, xs: seq<Bits>): BitValue
    decreases |xs|
  {
    if xs == [] then s else Update(op, Step(op, s, xs[0]), xs[1..])
  }

  /** Combine(source, target) on abstract states: the new target. */
  function Merge(op: BitOperation, source: BitValue, target: BitValue): BitValue
  {
    match source
    case Unset => target
    case Set(v) => Step(op, target, v)
  }

  /** Updating with `xs ++ ys` is updating with `xs`, then with `ys`. */
  lemma {:induction false} UpdateAppend(op: BitOperation, s: BitValue, xs: seq<Bits>, ys: seq<Bits>)
    ensures Update(op, s, xs + ys) == Update(op, Update(op, s, xs), ys)
    decreases |xs|
  {
    if xs != [] {
      assert (xs + ys)[0] == xs[0];
      assert (xs + ys)[1..] == xs[1..] + ys;
      UpdateAppend(op, Step(op, s, xs[0]), xs[1..], ys);
    } else {
      assert xs + ys == ys;
    }
  }

  /** Merging commutes with a later step of the source. */
  lemma MergeStep(op: BitOperation, u: BitValue, t: BitValue, y: Bits)
    ensures Merge(op, Step(op, u, y), t) == Step(op, Merge(op, u, t), y)
  {
    match (u, t)
    case (Set(w), Set(v)) => ApplyAssociative(op, v, w, y);
    case _ =>
  }

  /**
   * The partial-aggregate property: merging a state updated from scratch
   * with `ys` into a state `t` is updating `t` with `ys`.
   */
  lemma {:induction false} MergeUpdate(op: BitOperation, t: BitValue, ys: seq<Bits>)
    ensures Merge(op, Update(op, Unset, ys), t) == Update(op, t, ys)
    decreases |ys|
  {
    if ys != [] {
      var zs, y := ys[..|ys| - 1], ys[|ys| - 1];
      assert ys == zs + [y];
      MergeUpdate(op, t, zs);
      UpdateAppend(op, Unset, zs, [y]);
      UpdateAppend(op, t, zs, [y]);
      MergeStep(op, Update(op, Unset, zs), t, y);
    }
  }

  /**
   * Combine agrees with update: a state updated with `xs`, combined with a
   * state updated from scratch with `ys`, equals the state updated with
   * `xs ++ ys`.
   */
  lemma {:induction false} CombineAgreesWithUpdate(op: BitOperation, s: BitValue, xs: seq<Bits>, ys: seq<Bits>)
    ensures Merge(op, Update(op, Unset, ys), Update(op, s, xs)) == Update(op, s, xs + ys)
  {
    MergeUpdate(op, Update(op, s, xs), ys);
    UpdateAppend(op, s, xs, ys);
  }

  /** ConstantOperation as written: one Operation on the first input, whatever `count` is. */
  function ConstantOperationAsWritten(op: BitOperation, s: BitValue, input: seq<Bits>, count: nat): (r: BitValue)
    requires |input| >= 1
    ensures r == Update(op, s, [input[0]])
  {
    Step(op, s, input[0])
  }

  /** `count` copies of one input. */
  function Repeat(x: Bits, count: nat): (xs: seq<Bits>)
    ensures |xs| == count && forall i :: 0 <= i < count ==> xs[i] == x
  {
    seq(count, _ => x)
  }

  lemma RepeatSnoc(x: Bits, count: nat)
    ensures Repeat(x, count + 1) == Repeat(x, count) + [x]
  {
  }

  /** For BIT_AND and BIT_OR, one Operation stands for any positive number of equal rows. */
  lemma {:induction false} IdempotentConstant(op: BitOperation, s: BitValue, x: Bits, count: nat)
    requires op != BitXor && count >= 1
    ensures ConstantOperationAsWritten(op, s, [x], count) == Update(op, s, Repeat(x, count))
    decreases count
  {
    if count > 1 {
      IdempotentConstant(op, s, x, count - 1);
      RepeatSnoc(x, count - 1);
      UpdateAppend(op, s, Repeat(x, count - 1), [x]);
      match s
      case Unset => ApplyIdempotent(op, ZERO, x); assert Apply(op, x, x) == x by { AbsorbSelf(op, x); }
      case Set(v) => ApplyIdempotent(op, v, x);
    }
  }

  lemma AbsorbSelf(op: BitOperation, x: Bits)
    requires op != BitXor
    ensures Apply(op, x, x) == x
  {
    if op == BitAnd {
      AndWordLaws(x.upper, x.upper, 0);
      assert AndWord(x.upper, x.upper) == x.upper;
      assert AndWord(x.lower, x.lower) == x.lower;
    } else {
      assert OrWord(x.upper, x.upper) == x.upper;
      assert OrWord(x.lower, x.lower) == x.lower;
    }
  }

  /** Two equal BIT_XOR rows on an unset state cancel, which ConstantOperation as written misses. */
  lemma XorConstantCounterexample()
    ensures ConstantOperationAsWritten(BitXor, Unset, [Bits(0, 1)], 2) == Set(Bits(0, 1))
    ensures Update(BitXor, Unset, Repeat(Bits(0, 1), 2)) == Set(ZERO)
  {
    assert Repeat(Bits(0, 1), 2) == [Bits(0, 1), Bits(0, 1)];
    XorCancels(ZERO, Bits(0, 1));
  }

  /** Two BIT_XOR updates with the same row leave a set state as it was, and an unset one at zero. */
  lemma XorTwice(s: BitValue, x: Bits)
    ensures Update(BitXor, s, [x, x]) == Set(if s.Set? then s.value else ZERO)
  {
    assert [x, x][1..] == [x];
    assert Update(BitXor, s, [x, x]) == Update(BitXor, Step(BitXor, s, x), [x]);
    assert Update(BitXor, Step(BitXor, s, x), [x]) == Step(BitXor, Step(BitXor, s, x), x);
    match s
    case Unset => XorCancels(ZERO, x);
    case Set(v) => XorCancels(v, x);
  }

  /** BIT_XOR over `count` equal rows depends only on the parity of `count`. */
  lemma {:induction false} XorRepeatParity(s: BitValue, x: Bits, count: nat)
    requires count >= 1
    ensures Update(BitXor, s, Repeat(x, count)) ==
      if count % 2 == 1 then Step(BitXor, s, x) else Set(if s.Set? then s.value else ZERO)
    decreases count
  {
    if count == 1 {
      assert Repeat(x, 1) == [x];
    } else if count == 2 {
      assert Repeat(x, 2) == [x, x];
      XorTwice(s, x);
    } else {
      XorRepeatParity(s, x, count - 2);
      assert Repeat(x, count) == Repeat(x, count - 2) + [x, x];
      UpdateAppend(BitXor, s, Repeat(x, count - 2), [x, x]);
      XorTwice(Update(BitXor, s, Repeat(x, count - 2)), x);
    }
  }

  // ---------------------------------------------------------------------
  // The state as the executor holds it

  /** A `bit_state_t` whose unsigned value has `width` bits. */
  class BitState {
    const width: nat
    var isSet: bool
    var value: Bits

    ghost predicate Valid()
      reads this
    {
      width <= 128 && (isSet ==> Fits(value, width))
    }

    /** The abstract value of the state. */
    function State(): BitValue
      reads this
    {
      if isSet then Set(value) else Unset
    }

    /** Storage for a state of the given width, before Initialize. */
    constructor (width: nat)
      requires width <= 128
      ensures this.width == width && Valid()
    {
      this.width := width;
      isSet := false;
      value := ZERO;
    }

    /** Initialize: no matching row yet, so the aggregate would be NULL. */
    method Initialize()
      requires Valid()
      modifies this
      ensures Valid() && !isSet && State() == Unset
    {
      isSet := false;
    }

    /** Operation: fold `input[idx]` into the state. */
    method Operation(op: BitOperation, input: seq<Bits>, idx: nat)
      requires Valid() && idx < |input| && Fits(input[idx], width)
      modifies this
      ensures Valid() && isSet
      ensures !old(isSet) ==> value == input[idx]
      ensures old(isSet) ==> value == Apply(op, old(value), input[idx])
      ensures State() == Update(op, old(State()), [input[idx]])
    {
      if !isSet {
        isSet := true;
        value := input[idx];
      } else {
        ApplyFits(op, value, input[idx], width);
        value := Apply(op, value, input[idx]);
      }
    }

    /**
     * ConstantOperation, corrected: a constant vector stands for `count` rows
     * with the value `input[0]`, so the state takes `count` Operations.  For
     * BIT_AND and BIT_OR this agrees with the source's single Operation
     * whenever count >= 1 (IdempotentConstant).
     */
    method ConstantOperation(op: BitOperation, input: seq<Bits>, count: nat)
      requires Valid() && |input| >= 1 && Fits(input[0], width)
      modifies this
      ensures Valid()
      ensures State() == Update(op, old(State()), Repeat(input[0], count))
    {
      var i := 0;
      while i < count
        invariant 0 <= i <= count && Valid()
        invariant State() == Update(op, old(State()), Repeat(input[0], i))
      {
        Operation(op, input, 0);
        assert Repeat(input[0], i + 1) == Repeat(input[0], i) + [input[0]];
        UpdateAppend(op, old(State()), Repeat(input[0], i), [input[0]]);
        i := i + 1;
      }
    }

    /** Finalize: an unset state yields NULL at `idx`; a set one writes its value there. */
    method Finalize(target: array<Bits>, nullmask: array<bool>, idx: nat)
      requires Valid() && idx < target.Length && idx < nullmask.Length
      modifies target, nullmask
      ensures !isSet ==> nullmask[idx] && target[..] == old(target[..])
      ensures isSet ==> target[idx] == value && nullmask[..] == old(nullmask[..])
      ensures forall i :: 0 <= i < target.Length && i != idx ==> target[i] == old(target[i])
      ensures forall i :: 0 <= i < nullmask.Length && i != idx ==> nullmask[i] == old(nullmask[i])
    {
      if !isSet {
        nullmask[idx] := true;
      } else {
        target[idx] := value;
      }
    }

    /** Combine(source, this): merge a partial aggregate into this one. */
    method Combine(op: BitOperation, source: BitState)
      requires Valid() && source.Valid() && source.width == width
      modifies this
      ensures Valid()
      ensures !old(source.isSet) ==> isSet == old(isSet) && value == old(value)
      ensures old(source.isSet) && !old(isSet) ==> isSet && value == old(source.value)
      ensures old(source.isSet) && old(isSet) ==> isSet && value == Apply(op, old(value), old(source.value))
      ensures State() == Merge(op, old(source.State()), old(State()))
    {
      if !source.isSet {
        return;
      }
      if !isSet {
        isSet, value := source.isSet, source.value;
      } else {
        ApplyFits(op, value, source.value, width);
        value := Apply(op, value, source.value);
      }
    }
  }

  // ---------------------------------------------------------------------
  // NULL inputs

  /** IgnoreNull: all three aggregates skip NULL rows. */
  function IgnoreNull(op: BitOperation): bool
  {
    true
  }

  /** The non-NULL values of a column, in order. */
  function NonNull(rows: seq<Option<Bits>>): seq<Bits>
  {
    if rows == [] then []
    else if rows[0].None? then NonNull(rows[1..]) else [rows[0].value] + NonNull(rows[1..])
  }

  /** How rows reach the state: a NULL row is passed over when the aggregate ignores NULLs. */
  function UpdateRows(op: BitOperation, s: BitValue, rows: seq<Option<Bits>>): BitValue
    decreases |rows|
  {
    if rows == [] then s
    else if rows[0].None? && IgnoreNull(op) then UpdateRows(op, s, rows[1..])
    else UpdateRows(op, Step(op, s, if rows[0].Some? then rows[0].value else ZERO), rows[1..])
  }

  /** NULL rows do not affect any of the three aggregates. */
  lemma {:induction false} NullsIgnored(op: BitOperation, s: BitValue, rows: seq<Option<Bits>>)
    ensures UpdateRows(op, s, rows) == Update(op, s, NonNull(rows))
    decreases |rows|
  {
    if rows != [] {
      if rows[0].None? {
        NullsIgnored(op, s, rows[1..]);
      } else {
        NullsIgnored(op, Step(op, s, rows[0].value), rows[1..]);
        assert ([rows[0].value] + NonNull(rows[1..]))[1..] == NonNull(rows[1..]);
      }
    }
  }
}

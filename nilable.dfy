/**
  `Nilable[T]` (nilable.go): a value together with a presence flag, without
  any serialisation.

  `NilableState` is the struct's contents as a value; the class `Nilable`
  holds the two fields that `SetValue` and `Clear` update in place. Its
  invariant, "absent implies zero value", is what the doc comment of `Value`
  relies on, and no history of calls can break it.
 */
module NilableHolder {

  /** The contents of a `Nilable[T]` struct. */
  datatype NilableState<T> = NilableState(presented: bool, value: T)

  /** A zero-initialised `Nilable[T]`, given Go's zero value of `T`. */
  function ZeroNilable<T>(zero: T): (r: NilableState<T>)
    ensures !r.presented && ZeroWhenAbsent(r, zero)
  {
    NilableState(false, zero)
  }

  /** The doc comment of `Value`: an absent holder holds the zero value. */
  ghost predicate ZeroWhenAbsent<T>(s: NilableState<T>, zero: T)
  {
    !s.presented ==> s.value == zero
  }

  /** One call of a mutator. */
  datatype Call<T> = SetValueCall(v: T) | ClearCall

  /**
    The effect of one mutator call. Both mutators overwrite both fields, so
    the result does not depend on the state before, and it always keeps the
    invariant.
   */
  function Step<T>(s: NilableState<T>, c: Call<T>, zero: T): (r: NilableState<T>)
    ensures r.presented == c.SetValueCall?
    ensures ZeroWhenAbsent(r, zero)
  {
    match c
    case SetValueCall(v) => NilableState(true, v)
    case ClearCall => NilableState(false, zero)
  }

  /** The struct after the calls, in order, starting from `s`. */
  function Run<T>(s: NilableState<T>, calls: seq<Call<T>>, zero: T): NilableState<T>
    decreases |calls|
  {
    if calls == [] then s else Run(Step(s, calls[0], zero), calls[1..], zero)
  }

  /** Replaying one more call is one more `Step`. */
  lemma {:induction false} RunSnoc<T>(s: NilableState<T>, calls: seq<Call<T>>, c: Call<T>, zero: T)
    ensures Run(s, calls + [c], zero) == Step(Run(s, calls, zero), c, zero)
    decreases |calls|
  {
    if calls == [] {
      assert [] + [c] == [c];
    } else {
      assert (calls + [c])[1..] == calls[1..] + [c];
      RunSnoc(Step(s, calls[0], zero), calls[1..], c, zero);
    }
  }

  /**
    The invariant holds of the zero-initialised struct and survives every
    history of `SetValue` and `Clear` calls.
   */
  lemma {:induction false} ZeroWhenAbsentKept<T>(s: NilableState<T>, calls: seq<Call<T>>, zero: T)
    requires ZeroWhenAbsent(s, zero)
    ensures ZeroWhenAbsent(Run(s, calls, zero), zero)
    decreases |calls|
  {
    if calls != [] {
      ZeroWhenAbsentKept(Step(s, calls[0], zero), calls[1..], zero);
    }
  }

  /**
    `Value()`'s doc comment holds after every history that starts from the
    zero-initialised struct: a nil holder holds the zero value.
   */
  lemma ValueZeroWhenNil<T>(calls: seq<Call<T>>, zero: T)
    ensures !Run(ZeroNilable(zero), calls, zero).presented ==> Run(ZeroNilable(zero), calls, zero).value == zero
  {
    ZeroWhenAbsentKept(ZeroNilable(zero), calls, zero);
  }

  /**
    The state after a non-empty history is the state after its last call
    alone: nothing earlier is remembered.
   */
  lemma LastCallDecides<T>(s: NilableState<T>, calls: seq<Call<T>>, zero: T)
    requires |calls| > 0
    ensures Run(s, calls, zero) == Step(ZeroNilable(zero), calls[|calls| - 1], zero)
    ensures Run(s, calls, zero).presented == calls[|calls| - 1].SetValueCall?
  {
    var n := |calls| - 1;
    assert calls == calls[..n] + [calls[n]];
    RunSnoc(s, calls[..n], calls[n], zero);
  }

  /** The last `SetValue` wins: the holder is presented with `v`. */
  lemma LastSetValueWins<T>(s: NilableState<T>, calls: seq<Call<T>>, v: T, zero: T)
    ensures Run(s, calls + [SetValueCall(v)], zero) == NilableState(true, v)
  {
    RunSnoc(s, calls, SetValueCall(v), zero);
  }

  /** `Clear` is idempotent, and after it the holder is the zero-initialised struct. */
  lemma ClearIdempotent<T>(s: NilableState<T>, calls: seq<Call<T>>, zero: T)
    ensures Run(s, calls + [ClearCall], zero) == ZeroNilable(zero)
    ensures Run(s, calls + [ClearCall, ClearCall], zero) == Run(s, calls + [ClearCall], zero)
  {
    assert calls + [ClearCall, ClearCall] == (calls + [ClearCall]) + [ClearCall];
    RunSnoc(s, calls + [ClearCall], ClearCall, zero);
    RunSnoc(s, calls, ClearCall, zero);
  }

  /**
    `*Nilable[T]`: the struct whose fields `SetValue` and `Clear` update in
    place. `zero` is Go's zero value of `T`, which Dafny cannot name for a
    generic type.
   */
  class Nilable<T> {
    var presented: bool
    var value: T
    const zero: T

    /** The struct's current contents. */
    function State(): NilableState<T>
      reads this
    {
      NilableState(presented, value)
    }

    /** "Absent implies zero value". */
    ghost predicate Valid()
      reads this
    {
      ZeroWhenAbsent(State(), zero)
    }

    /** `var n Nilable[T]`. */
    constructor (zero: T)
      ensures this.zero == zero && State() == ZeroNilable(zero)
      ensures Valid()
    {
      this.zero := zero;
      presented := false;
      value := zero;
    }

    /** `Nil`: always the negation of `Presented`. */
    function Nil(): (r: bool)
      reads this
      ensures r == !Presented()
    {
      !presented
    }

    /** `Value`: the stored value, which is the zero value when absent. */
    function Value(): (r: T)
      reads this
      ensures Valid() && Nil() ==> r == zero
    {
      value
    }

    /** `ValueOr`: the stored value when presented, `defaultValue` otherwise. */
    function ValueOr(defaultValue: T): (r: T)
      reads this
      ensures Presented() ==> r == Value()
      ensures Nil() ==> r == defaultValue
    {
      if presented then value else defaultValue
    }

    /** `Presented`. */
    function Presented(): bool
      reads this
    {
      presented
    }

    /** `SetValue`: stores `v` and marks the holder presented. */
    method SetValue(v: T)
      modifies this
      ensures State() == Step(old(State()), SetValueCall(v), zero)
      ensures Valid() && Presented() && !Nil() && Value() == v
    {
      value := v;
      presented := true;
    }

    /** `Clear`: marks the holder absent and stores the zero value. */
    method Clear()
      modifies this
      ensures State() == Step(old(State()), ClearCall, zero)
      ensures Valid() && Nil() && Value() == zero
    {
      presented := false;
      value := zero;
    }
  }
}

/**
  `Optional[T]` (optional.go): a value together with a presence flag, and the
  JSON convention that an absent value is written and read as `null`.

  The struct's contents as a value are `OptionalState`; Go copies them for the
  value-receiver method `MarshalJSON` and returns them from `NewOptional`. The
  pointer-receiver methods, which update the two fields in place, live on the
  class `Optional`. A sequence of mutator calls is a `seq<Call>`, and `Run`
  replays it; the lemmas about `Run` state what holds after any history.
 */
module OptionalHolder {
  import opened Wrappers
  import opened Json

  /** The contents of an `Optional[T]` struct. */
  datatype OptionalState<T> = OptionalState(value: T, presented: bool)
  {
    /**
      `MarshalJSON`: exactly the bytes `null`, without error, when absent;
      otherwise whatever the codec returns for the value, failures included.
     */
    function MarshalJSON(codec: Codec<T>): (r: Result<Bytes, CodecError>)
      ensures !presented ==> r == Success(NullToken)
      ensures presented ==> r == codec.marshal(value)
    {
      if !presented then Success(NullToken) else codec.marshal(value)
    }
  }

  /** A zero-initialised `Optional[T]`, given Go's zero value of `T`. */
  function ZeroOptional<T>(zero: T): (r: OptionalState<T>)
    ensures !r.presented && ZeroWhenAbsent(r, zero)
  {
    OptionalState(zero, false)
  }

  /** `NewOptional(v)`: a struct that holds `v` and is presented. */
  function NewOptional<T>(v: T): (r: OptionalState<T>)
    ensures r.presented && r.value == v
  {
    OptionalState(v, true)
  }

  /** The doc comment of `Value`: an absent holder holds the zero value. */
  ghost predicate ZeroWhenAbsent<T>(s: OptionalState<T>, zero: T)
  {
    !s.presented ==> s.value == zero
  }

  /** One call of a pointer-receiver mutator. */
  datatype Call<!T> =
    | SetValueCall(v: T)
    | ClearCall
    | UnmarshalCall(codec: Codec<T>, data: Bytes)

  /** `UnmarshalJSON` on input that is exactly the bytes `null`. */
  predicate IsNullUnmarshal<T>(c: Call<T>)
  {
    c.UnmarshalCall? && c.data == NullToken
  }

  /** The calls after which the holder is presented. */
  predicate MarksPresent<T>(c: Call<T>)
  {
    c.SetValueCall? || (c.UnmarshalCall? && c.data != NullToken)
  }

  /** The struct after a call, and the error the call returned. */
  datatype Transition<T> = Transition(after: OptionalState<T>, err: Option<CodecError>)

  /**
    The effect of one mutator call on the struct. Every call decides the
    presence flag on its own; only a non-`null` `UnmarshalJSON` can fail, and
    it is presented even then.
   */
  function Step<T>(s: OptionalState<T>, c: Call<T>, zero: T): (t: Transition<T>)
    ensures t.after.presented == MarksPresent(c)
    ensures t.err.Some? ==> c.UnmarshalCall? && c.data != NullToken
    ensures IsNullUnmarshal(c) ==> t.after.value == s.value && t.err == None
  {
    match c
    case SetValueCall(v) => Transition(OptionalState(v, true), None)
    case ClearCall => Transition(OptionalState(zero, false), None)
    case UnmarshalCall(codec, data) =>
      if data == NullToken then
        Transition(OptionalState(s.value, false), None)
      else
        var d := codec.unmarshal(data, s.value);
        Transition(OptionalState(d.value, true), d.err)
  }

  /** The struct after the calls, in order, starting from `s`. */
  function Run<T>(s: OptionalState<T>, calls: seq<Call<T>>, zero: T): OptionalState<T>
    decreases |calls|
  {
    if calls == [] then s else Run(Step(s, calls[0], zero).after, calls[1..], zero)
  }

  /** Replaying one more call is one more `Step`. */
  lemma {:induction false} RunSnoc<T>(s: OptionalState<T>, calls: seq<Call<T>>, c: Call<T>, zero: T)
    ensures Run(s, calls + [c], zero) == Step(Run(s, calls, zero), c, zero).after
    decreases |calls|
  {
    if calls == [] {
      assert [] + [c] == [c];
    } else {
      assert (calls + [c])[1..] == calls[1..] + [c];
      RunSnoc(Step(s, calls[0], zero).after, calls[1..], c, zero);
    }
  }

  /** After any non-empty history, `Presented()` is decided by the last call alone. */
  lemma PresenceDecidedByLastCall<T>(s: OptionalState<T>, calls: seq<Call<T>>, zero: T)
    requires |calls| > 0
    ensures Run(s, calls, zero).presented == MarksPresent(calls[|calls| - 1])
  {
    var n := |calls| - 1;
    assert calls == calls[..n] + [calls[n]];
    RunSnoc(s, calls[..n], calls[n], zero);
  }

  /** The last `SetValue` wins, whatever came before: the holder is `NewOptional(v)`. */
  lemma LastSetValueWins<T>(s: OptionalState<T>, calls: seq<Call<T>>, v: T, zero: T)
    ensures Run(s, calls + [SetValueCall(v)], zero) == NewOptional(v)
  {
    RunSnoc(s, calls, SetValueCall(v), zero);
  }

  /** `Clear` after any history gives back the zero-initialised struct. */
  lemma ClearResetsToZero<T>(s: OptionalState<T>, calls: seq<Call<T>>, zero: T)
    ensures Run(s, calls + [ClearCall], zero) == ZeroOptional(zero)
  {
    RunSnoc(s, calls, ClearCall, zero);
  }

  /** `Clear` is idempotent: a second call changes nothing. */
  lemma ClearIdempotent<T>(s: OptionalState<T>, calls: seq<Call<T>>, zero: T)
    ensures Run(s, calls + [ClearCall, ClearCall], zero) == Run(s, calls + [ClearCall], zero)
  {
    assert calls + [ClearCall, ClearCall] == (calls + [ClearCall]) + [ClearCall];
    RunSnoc(s, calls + [ClearCall], ClearCall, zero);
    ClearResetsToZero(s, calls, zero);
  }

  /**
    "Absent implies zero" survives every history without a `null`
    `UnmarshalJSON`: `SetValue`, `Clear` and a non-`null` `UnmarshalJSON` all
    keep it.
   */
  lemma {:induction false} ZeroWhenAbsentKept<T>(s: OptionalState<T>, calls: seq<Call<T>>, zero: T)
    requires ZeroWhenAbsent(s, zero)
    requires forall i :: 0 <= i < |calls| ==> !IsNullUnmarshal(calls[i])
    ensures ZeroWhenAbsent(Run(s, calls, zero), zero)
    decreases |calls|
  {
    if calls != [] {
      assert !IsNullUnmarshal(calls[0]);
      ZeroWhenAbsentKept(Step(s, calls[0], zero).after, calls[1..], zero);
    }
  }

  /**
    `Value()`'s doc comment holds after every history that starts from the
    zero-initialised struct and has no `null` `UnmarshalJSON`: an absent
    holder then holds the zero value.
   */
  lemma ValueZeroWhenAbsent<T>(calls: seq<Call<T>>, zero: T)
    requires forall i :: 0 <= i < |calls| ==> !IsNullUnmarshal(calls[i])
    ensures !Run(ZeroOptional(zero), calls, zero).presented ==> Run(ZeroOptional(zero), calls, zero).value == zero
  {
    ZeroWhenAbsentKept(ZeroOptional(zero), calls, zero);
  }

  /**
    Any number of `null` unmarshals never touch the stored value; after at
    least one the holder is absent.
   */
  lemma {:induction false} NullUnmarshalsKeepValue<T>(s: OptionalState<T>, calls: seq<Call<T>>, zero: T)
    requires forall i :: 0 <= i < |calls| ==> IsNullUnmarshal(calls[i])
    ensures Run(s, calls, zero).value == s.value
    ensures calls != [] ==> !Run(s, calls, zero).presented
    decreases |calls|
  {
    if calls != [] {
      assert IsNullUnmarshal(calls[0]);
      var next := Step(s, calls[0], zero).after;
      NullUnmarshalsKeepValue(next, calls[1..], zero);
      if calls[1..] == [] {
        assert Run(s, calls, zero) == Run(next, [], zero);
      }
    }
  }

  /**
    `SetValue(x)` followed by `UnmarshalJSON("null")` leaves the holder
    absent and still holding `x`: for `x` other than the zero value, `Value()`
    then breaks its own doc comment.
   */
  lemma StaleValueAfterNullUnmarshal<T>(codec: Codec<T>, x: T, zero: T)
    requires x != zero
    ensures Run(ZeroOptional(zero), [SetValueCall(x), UnmarshalCall(codec, NullToken)], zero)
            == OptionalState(x, false)
    ensures !ZeroWhenAbsent(OptionalState(x, false), zero)
  {
    var calls := [SetValueCall(x), UnmarshalCall(codec, NullToken)];
    assert calls == [SetValueCall(x)] + [UnmarshalCall(codec, NullToken)];
    RunSnoc(ZeroOptional(zero), [SetValueCall(x)], UnmarshalCall(codec, NullToken), zero);
    LastSetValueWins(ZeroOptional(zero), [], x, zero);
    assert [] + [SetValueCall(x)] == [SetValueCall(x)];
  }

  /**
    Any input other than exactly `null` makes the holder presented and
    returns the codec's error unchanged, success or failure.
   */
  lemma UnmarshalNonNull<T>(s: OptionalState<T>, codec: Codec<T>, data: Bytes, zero: T)
    requires data != NullToken
    ensures Step(s, UnmarshalCall(codec, data), zero)
            == Transition(OptionalState(codec.unmarshal(data, s.value).value, true),
                          codec.unmarshal(data, s.value).err)
  {
  }

  /** The `null` test is exact: a `null` preceded by a space is handed to the codec. */
  lemma PaddedNullGoesToCodec<T>(s: OptionalState<T>, codec: Codec<T>, zero: T)
    ensures Step(s, UnmarshalCall(codec, [Space] + NullToken), zero).after.presented
  {
    assert |[Space] + NullToken| == 5;
  }

  /** An absent holder marshals to exactly the four bytes `null`, without error. */
  lemma MarshalAbsent<T>(s: OptionalState<T>, codec: Codec<T>)
    requires !s.presented
    ensures s.MarshalJSON(codec) == Success(NullToken)
  {
  }

  /**
    A present holder marshals to whatever the codec writes for its value;
    when that is `null` (a nil pointer, say), reading it back makes the
    holder absent.
   */
  lemma PresentNullEncodingReadsBackAbsent<T>(s: OptionalState<T>, codec: Codec<T>, target: OptionalState<T>, zero: T)
    requires s.presented
    requires codec.marshal(s.value) == Success(NullToken)
    ensures s.MarshalJSON(codec) == Success(NullToken)
    ensures !Step(target, UnmarshalCall(codec, NullToken), zero).after.presented
  {
  }

  /**
    `UnmarshalJSON` inverts `MarshalJSON` when the codec round-trips and a
    present value is not itself encoded as `null`: presence comes back, and
    so does the value when present. An absent holder read back keeps the
    destination's old value.
   */
  lemma MarshalRoundTrip<T(!new)>(s: OptionalState<T>, codec: Codec<T>, target: OptionalState<T>, zero: T)
    requires RoundTrips(codec)
    requires s.MarshalJSON(codec).Success?
    requires s.presented ==> s.MarshalJSON(codec).value != NullToken
    ensures var t := Step(target, UnmarshalCall(codec, s.MarshalJSON(codec).value), zero);
            && t.err == None
            && t.after.presented == s.presented
            && t.after.value == (if s.presented then s.value else target.value)
  {
  }

  /**
    `NewOptional(v)` marshalled and read back into a zero-initialised holder
    gives `NewOptional(v)` again, for a round-tripping codec that does not
    write `v` as `null`.
   */
  lemma NewOptionalRoundTrip<T(!new)>(v: T, codec: Codec<T>, zero: T)
    requires RoundTrips(codec)
    requires codec.marshal(v).Success? && codec.marshal(v).value != NullToken
    ensures NewOptional(v).MarshalJSON(codec) == codec.marshal(v)
    ensures Step(ZeroOptional(zero), UnmarshalCall(codec, codec.marshal(v).value), zero)
            == Transition(NewOptional(v), None)
  {
    MarshalRoundTrip(NewOptional(v), codec, ZeroOptional(zero), zero);
  }

  /**
    `*Optional[T]`: the struct whose fields the pointer-receiver methods
    update in place. `zero` is Go's zero value of `T`, which Dafny cannot
    name for a generic type.
   */
  class Optional<T> {
    var value: T
    var presented: bool
    const zero: T

    /** The struct's current contents. */
    function State(): OptionalState<T>
      reads this
    {
      OptionalState(value, presented)
    }

    /** `var o Optional[T]`. */
    constructor (zero: T)
      ensures this.zero == zero && State() == ZeroOptional(zero)
    {
      this.zero := zero;
      value := zero;
      presented := false;
    }

    /** `o := NewOptional(v)`, used through `&o`. */
    constructor New(zero: T, v: T)
      ensures this.zero == zero && State() == NewOptional(v)
    {
      this.zero := zero;
      value := v;
      presented := true;
    }

    /** `Value`: the stored value; the zero value when absent, if nothing broke that. */
    function Value(): (r: T)
      reads this
      ensures ZeroWhenAbsent(State(), zero) && NotPresented() ==> r == zero
    {
      value
    }

    /** `ValueOr`: the stored value when presented, `defaultValue` otherwise. */
    function ValueOr(defaultValue: T): (r: T)
      reads this
      ensures Presented() ==> r == Value()
      ensures NotPresented() ==> r == defaultValue
    {
      if presented then value else defaultValue
    }

    /** `Presented`. */
    function Presented(): bool
      reads this
    {
      presented
    }

    /** `NotPresented`: always the negation of `Presented`. */
    function NotPresented(): (r: bool)
      reads this
      ensures r == !Presented()
    {
      !presented
    }

    /** `SetValue`: stores `v` and marks the holder presented. */
    method SetValue(v: T)
      modifies this
      ensures State() == Step(old(State()), SetValueCall(v), zero).after
      ensures Presented() && Value() == v
    {
      value := v;
      presented := true;
    }

    /** `Clear`: marks the holder absent and stores the zero value. */
    method Clear()
      modifies this
      ensures State() == Step(old(State()), ClearCall, zero).after
      ensures NotPresented() && Value() == zero
    {
      presented := false;
      value := zero;
    }

    /**
      `UnmarshalJSON`: exactly `null` makes the holder absent and leaves the
      value alone; anything else marks it presented first and then decodes
      into the value, returning the codec's error.
     */
    method UnmarshalJSON(codec: Codec<T>, data: Bytes) returns (err: Option<CodecError>)
      modifies this
      ensures Transition(State(), err) == Step(old(State()), UnmarshalCall(codec, data), zero)
      ensures data == NullToken ==> NotPresented() && Value() == old(value) && err == None
      ensures data != NullToken ==> Presented()
    {
      if data == NullToken {
        presented := false;
        return None;
      }
      presented := true;
      var d := codec.unmarshal(data, value);
      value := d.value;
      err := d.err;
    }
  }
}

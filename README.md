# Presence holders of kkqy-go/generic, in Dafny

This project models the two "presence holder" types of the Go package
`generic`:

- `Optional[T]` (optional.go) is a value plus a `presented` flag. It has
  the accessors `Value`, `ValueOr`, `Presented` and `NotPresented`, the
  mutators `SetValue` and `Clear`, and the constructor `NewOptional`. It
  also has a JSON convention around `encoding/json`. `MarshalJSON` writes
  the four bytes `null` for an absent holder. `UnmarshalJSON` reads input
  that is exactly `null` as "absent".
- `Nilable[T]` (nilable.go) is the same pair without serialisation. Its
  accessors are `Nil`, `Value`, `ValueOr` and `Presented`, and its mutators
  are `SetValue` and `Clear`.

There is one module per Go file: `OptionalHolder` in optional.dfy and
`NilableHolder` in nilable.dfy. Each module has these parts:

- a datatype (`OptionalState`, `NilableState`) for the struct's contents as
  a value. Go copies the struct for the value-receiver `MarshalJSON` and
  returns it from `NewOptional`;
- a class (`Optional`, `Nilable`) for the struct behind a pointer. Its
  pointer-receiver mutators update the two fields in place. Each mutator's
  `ensures` gives the whole new state as `Step` of the old state;
- a `Call` datatype with `Step` and `Run`, which replay a history of mutator
  calls. The lemmas about `Run` state what holds after any history.

Go's zero value of `T` has no generic counterpart in Dafny. The model
therefore gives each object the zero value as `const zero: T`, and the
specification functions take it as a parameter.

`encoding/json` is a caller-supplied `Json.Codec`: a `marshal` function and
an `unmarshal(data, prior)` function. `unmarshal` returns the destination's
new contents and the error. Nothing is assumed about the codec except where
a lemma takes `Json.RoundTrips` as a hypothesis.

The model follows the code where one might expect something else:

- The `null` test in `UnmarshalJSON` compares bytes exactly. Input such as
  ` null` goes to the codec and makes the holder presented.
- The `null` branch clears the flag but keeps the stored value. So
  `SetValue(x)` then `UnmarshalJSON("null")` leaves `Value() == x` on an
  absent holder. This breaks the doc comment of `Value` for any `x` other
  than the zero value (`StaleValueAfterNullUnmarshal`). `Nilable` has no
  such path, and its invariant "absent implies zero value" always holds.
- A non-`null` `UnmarshalJSON` marks the holder presented before it
  decodes. A decode error still leaves the holder presented.

## Model

| member | source | states |
|---|---|---|
| `OptionalHolder.OptionalState.MarshalJSON` | optional.go:47-52 | An absent holder gives exactly the bytes `null` with no error. A present holder gives whatever the codec returns for its value, failures included. |
| `OptionalHolder.NewOptional` | optional.go:63-65 | `NewOptional(v)` is presented and holds `v`. |
| `OptionalHolder.ZeroOptional` | optional.go:5-8 | The zero-initialised struct is absent and satisfies "absent implies zero value". |
| `OptionalHolder.Step` | optional.go:35-60 | After any mutator call, presence depends on that call alone: `SetValue` and a non-`null` `UnmarshalJSON` mark the holder presented, while `Clear` and a `null` unmarshal mark it absent. Only a non-`null` unmarshal can return an error. A `null` unmarshal keeps the value and returns no error. |
| `OptionalHolder.PresenceDecidedByLastCall` | optional.go:25-60 | After any non-empty history of calls, `Presented()` is decided by the last call alone. |
| `OptionalHolder.LastSetValueWins` | optional.go:35-38 | After any history that ends in `SetValue(v)`, the holder equals `NewOptional(v)`: it is presented and holds `v`. The last write wins. |
| `OptionalHolder.ClearResetsToZero` | optional.go:41-45 | After any history that ends in `Clear`, the holder equals the zero-initialised struct: it is absent and holds the zero value. |
| `OptionalHolder.ClearIdempotent` | optional.go:41-45 | A second `Clear` after any history leaves the same state as one `Clear`. |
| `OptionalHolder.ZeroWhenAbsentKept` | optional.go:10-13 | "Absent implies zero value" is kept by every history that has no `null` unmarshal. |
| `OptionalHolder.ValueZeroWhenAbsent` | optional.go:10-13 | Start from the zero-initialised struct and take any history without a `null` unmarshal. Then an absent holder holds the zero value, as `Value()`'s doc comment says. |
| `OptionalHolder.NullUnmarshalsKeepValue` | optional.go:54-58 | Any number of `null` unmarshals leave the stored value unchanged. After at least one of them, the holder is absent. |
| `OptionalHolder.StaleValueAfterNullUnmarshal` | optional.go:54-58 | `SetValue(x)` then `UnmarshalJSON("null")` gives an absent holder that still holds `x`. For `x` other than the zero value, this breaks "absent implies zero value". |
| `OptionalHolder.UnmarshalNonNull` | optional.go:59-60 | On any input other than exactly `null`, the holder becomes presented. The value becomes what the codec decodes into the old value, and the codec's error is returned unchanged. The holder stays presented when that error is not nil. |
| `OptionalHolder.PaddedNullGoesToCodec` | optional.go:55 | The `null` test is exact. A space followed by `null` is not the token, so it goes to the codec and the holder becomes presented. |
| `OptionalHolder.MarshalAbsent` | optional.go:47-50 | An absent holder marshals to exactly the four bytes `null`, with no error. |
| `OptionalHolder.PresentNullEncodingReadsBackAbsent` | optional.go:47-58 | A present holder whose value the codec writes as `null` also marshals to `null`. Reading that back makes the holder absent. |
| `OptionalHolder.MarshalRoundTrip` | optional.go:47-61 | Take a codec that round-trips and a present value not encoded as `null`. Then `UnmarshalJSON(MarshalJSON(s))` restores presence and, when present, the value, with no error. An absent holder read back keeps the destination's old value. |
| `OptionalHolder.NewOptionalRoundTrip` | optional.go:63-65 | `NewOptional(v)` marshals as the codec writes `v`. Under the same hypotheses, reading that into a zero-initialised holder gives `NewOptional(v)` again. |
| `OptionalHolder.Optional.constructor` | optional.go:5-8 | A zero-initialised `Optional` is absent and holds the zero value. |
| `OptionalHolder.Optional.New` | optional.go:63-65 | An object created from `NewOptional(v)` is presented and holds `v`. |
| `OptionalHolder.Optional.Value` | optional.go:10-13 | When the holder is absent and "absent implies zero value" holds, `Value()` is the zero value. |
| `OptionalHolder.Optional.ValueOr` | optional.go:15-22 | `ValueOr(d)` is `Value()` when presented and `d` otherwise. Being a function, it changes nothing. |
| `OptionalHolder.Optional.NotPresented` | optional.go:29-32 | `NotPresented()` is always the negation of `Presented()`. |
| `OptionalHolder.Optional.SetValue` | optional.go:34-38 | The new state is `Step` of the old state for `SetValue(v)`: presented, with `Value() == v`. |
| `OptionalHolder.Optional.Clear` | optional.go:40-45 | The new state is `Step` of the old state for `Clear`: absent, with `Value()` the zero value. |
| `OptionalHolder.Optional.UnmarshalJSON` | optional.go:54-61 | The new state and the returned error are `Step` of the old state. On exactly `null` the holder is absent, keeps its old value and returns no error. On any other input it is presented, whatever the codec returns. |
| `NilableHolder.Step` | nilable.go:33-43 | Each mutator call decides presence by itself: `SetValue` gives presented and `Clear` gives absent. Each call establishes "absent implies zero value". |
| `NilableHolder.ZeroNilable` | nilable.go:3-6 | The zero-initialised struct is nil and satisfies "absent implies zero value". |
| `NilableHolder.ZeroWhenAbsentKept` | nilable.go:13-43 | "Absent implies zero value" survives every history of `SetValue` and `Clear`. |
| `NilableHolder.ValueZeroWhenNil` | nilable.go:13-16 | Start from the zero-initialised struct and take any history. Then a nil holder holds the zero value, as `Value()`'s doc comment says. |
| `NilableHolder.LastCallDecides` | nilable.go:33-43 | After any non-empty history, the state is the one its last call alone produces from the zero-initialised struct. In particular, `Presented()` is true exactly when that call was `SetValue`. |
| `NilableHolder.LastSetValueWins` | nilable.go:33-36 | After any history that ends in `SetValue(v)`, the holder is presented with `v`. |
| `NilableHolder.ClearIdempotent` | nilable.go:39-43 | After any history that ends in `Clear`, the holder is zero-initialised. A second `Clear` changes nothing. |
| `NilableHolder.Nilable.constructor` | nilable.go:3-6 | A zero-initialised `Nilable` is absent, holds the zero value and satisfies the invariant. |
| `NilableHolder.Nilable.Nil` | nilable.go:8-11 | `Nil()` is always the negation of `Presented()`. |
| `NilableHolder.Nilable.Value` | nilable.go:13-16 | When the invariant holds and the holder is nil, `Value()` is the zero value, as the doc comment says. |
| `NilableHolder.Nilable.ValueOr` | nilable.go:18-25 | `ValueOr(d)` is `Value()` when presented and `d` when nil. Being a function, it changes nothing. |
| `NilableHolder.Nilable.SetValue` | nilable.go:32-36 | The new state is `Step` of the old state for `SetValue(v)`: valid, presented, not nil, and `Value() == v`. |
| `NilableHolder.Nilable.Clear` | nilable.go:38-43 | The new state is `Step` of the old state for `Clear`: valid, nil, and `Value()` the zero value. |

## Left out

- atomicvalue.go (`AtomicValue`) is not part of this model. It forwards to
  `sync/atomic.Value`, whose semantics are not available here. Its point is
  concurrent access, which this model does not cover.
- The internals of `encoding/json` are not part of this model. The codec is
  a parameter. `json.Marshal`'s `([]byte, error)` pair is a `Result`, which
  assumes that no bytes are returned together with an error.
- `SyncMap` is not part of this model, and neither is syncmap_test.go, which
  asserts nothing.
- `Presented` on both classes is a plain read of the flag and has no
  contract of its own. Its meaning is stated by `NotPresented`, `Nil`,
  `ValueOr` and the `Run` lemmas.
- Concurrency: both holders have no synchronisation, and the model treats
  every call as sequential.
- Go's value and pointer receivers: `MarshalJSON` is a function of the
  struct's contents (`OptionalState`). The class's state is passed to it
  through `State()`.

/**
  The JSON codec that `Optional` delegates to, kept abstract.

  `encoding/json` is not part of this model: a codec is a pair of functions
  supplied by the caller, and nothing is assumed about them unless a lemma
  takes `RoundTrips` as an explicit hypothesis.
 */
module Json {
  import opened Wrappers

  newtype byte = x: int | 0 <= x < 0x100

  type Bytes = seq<byte>

  /** The four bytes of the JSON literal `null`. */
  const NullToken: Bytes := [0x6E, 0x75, 0x6C, 0x6C]

  /** An ASCII space, the simplest JSON whitespace byte. */
  const Space: byte := 0x20

  /** The `error` value the codec reports; only its message is observable. */
  datatype CodecError = CodecError(message: string)

  /**
    What `json.Unmarshal(data, &v)` leaves behind: the new contents of `v`
    (which may be partly or wholly the old contents when decoding fails) and
    the error it returns.
   */
  datatype Decoded<T> = Decoded(value: T, err: Option<CodecError>)

  /**
    `marshal` plays `json.Marshal`; `unmarshal(data, prior)` plays
    `json.Unmarshal(data, &v)` on a variable `v` that holds `prior`.
   */
  datatype Codec<!T> = Codec(marshal: T -> Result<Bytes, CodecError>,
                             unmarshal: (Bytes, T) -> Decoded<T>)

  /**
    The codec reads back exactly what it wrote, without error, whatever the
    destination held before.
   */
  ghost predicate RoundTrips<T(!new)>(c: Codec<T>)
  {
    forall v: T, b: Bytes, prior: T ::
      c.marshal(v) == Success(b) ==> c.unmarshal(b, prior) == Decoded(v, None)
  }
}

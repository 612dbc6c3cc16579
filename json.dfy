/** The part of encoding/json that maybe.go uses: `json.Marshal` of a `*T`
    and `json.Unmarshal` into a `*T`. How a `T` itself is written and parsed is
    left abstract in a Codec; only the literal `null` is fixed, because the
    pointer layer handles it before the codec is consulted. */
module Json {
  import opened Go

  type Bytes = seq<bv8>

  /** The four bytes of the JSON literal `null`. */
  const Null: Bytes := [0x6E, 0x75, 0x6C, 0x6C]

  datatype Result<T> = Ok(value: T) | Err(error: Error)

  /** encoding/json's behaviour on a type `T`: `encode(v)` is `json.Marshal`
      of a `*T` pointing to `v` (so a pointer-receiver MarshalJSON of `T` is
      used), `decode` is `json.Unmarshal` of a document other than `null` into
      a freshly allocated `T`. */
  datatype Codec<!T> = Codec(encode: T -> Result<Bytes>, decode: Bytes -> Result<T>)

  /** `T`'s own encoding of `v` succeeds and reads back as `v`. */
  ghost predicate Lossless<T>(codec: Codec<T>, v: T) {
    codec.encode(v).Ok? && codec.decode(codec.encode(v).value) == Ok(v)
  }

  /** `json.Marshal(t)` for `t` of type `*T`: a nil pointer is written as
      `null`, any other pointer as the codec's encoding of what it points to. */
  function MarshalPointer<T>(codec: Codec<T>, t: Ptr<T>): (r: Result<Bytes>)
    ensures t.Nil? ==> r == Ok(Null)
    ensures t.Ref? ==> r == codec.encode(t.target)
  {
    match t
    case Nil => Ok(Null)
    case Ref(v) => codec.encode(v)
  }

  /** `json.Unmarshal(data, &t)` for `t` of type `*T` starting out nil: `null`
      leaves the pointer nil, anything else is decoded into a new `T`, and a
      document `T` cannot decode is an error. */
  function UnmarshalPointer<T>(codec: Codec<T>, data: Bytes): (r: Result<Ptr<T>>)
    ensures data == Null ==> r == Ok(Nil)
    ensures data != Null ==> (r.Err? <==> codec.decode(data).Err?)
    ensures r.Ok? && r.value.Ref? ==> data != Null && codec.decode(data) == Ok(r.value.target)
  {
    if data == Null then Ok(Nil)
    else match codec.decode(data)
      case Ok(v) => Ok(Ref(v))
      case Err(e) => Err(e)
  }

  /** A pointer survives Marshal then Unmarshal when it is nil, or when its
      pointee's own encoding is lossless and is not the literal `null`. */
  lemma PointerRoundTrip<T>(codec: Codec<T>, t: Ptr<T>)
    requires t.Ref? ==> Lossless(codec, t.target) && codec.encode(t.target) != Ok(Null)
    ensures MarshalPointer(codec, t).Ok?
    ensures UnmarshalPointer(codec, MarshalPointer(codec, t).value) == Ok(t)
  {
  }
}

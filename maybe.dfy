/** Package mo, maybe.go: the optional-value container `Maybe[T]`, its
    constructors, accessors, combinators and JSON hooks.

    Go supplies the zero value of `T` and reflection implicitly; here they are
    passed explicitly as a `GoType<T>`. The closures that Map, Fmap and Match
    return are modelled by applying them directly: `Map(tb, f, m)` is Go's
    `Map(f)(m)`. */
module Mo {
  import opened Go
  import opened Json

  /** `Maybe[T]` (maybe.go:17-20): a stored value and a presence flag. */
  datatype Maybe<T> = Maybe(value: T, valid: bool) {

    /** maybe.go:22-24: whether a value is present. */
    function HasValue(): (r: bool)
      ensures r <==> valid
    {
      valid
    }

    /** maybe.go:27-29: the stored value, present or not; no check is made,
        so there is no precondition. */
    function Value(): (r: T)
      ensures r == value
    {
      value
    }

    /** maybe.go:32-37: the stored value if present, else the fallback. */
    function ValueOr(fallback: T): (r: T)
      ensures valid ==> r == value
      ensures !valid ==> r == fallback
    {
      if valid then value else fallback
    }

    /** maybe.go:52-60: a present value is written as its own encoding, an
        absent one as `null`, through a `*T` that is nil exactly when absent. */
    function MarshalJSON(codec: Codec<T>): (r: Result<Bytes>)
      ensures valid ==> r == codec.encode(value)
      ensures !valid ==> r == Ok(Null)
    {
      var t := if valid then Ref(value) else Nil;
      MarshalPointer(codec, t)
    }
  }

  /** The invariant of every `Maybe` that the package's own operations build:
      an absent `Maybe` stores the zero value of `T`. */
  ghost predicate ZeroWhenAbsent<T>(ty: GoType<T>, m: Maybe<T>) {
    !m.valid ==> m.value == ty.zero
  }

  /** maybe.go:78-80: no value; the stored value is left at its zero value. */
  function Nothing<T>(ty: GoType<T>): (r: Maybe<T>)
    ensures !r.valid && ZeroWhenAbsent(ty, r)
  {
    Maybe(ty.zero, false)
  }

  /** maybe.go:64-74. A nil pointer collapses to Nothing, a non-nil pointer
      whose pointee is a `T` is dereferenced once, and any other value is
      stored as it is. A non-nil pointer whose pointee is not a `T` makes Go
      panic; callers must not pass one. */
  function Just<T>(ty: GoType<T>, v: T): (r: Maybe<T>)
    requires ty.Wrappable(v)
    ensures ZeroWhenAbsent(ty, r)
    ensures r.valid <==> !ty.reflect(v).NilPointer?
    ensures !r.valid ==> r == Nothing(ty)
    ensures ty.reflect(v).Plain? ==> r == Maybe(v, true)
    ensures ty.reflect(v).PointerTo? ==> r == Maybe(ty.reflect(v).elem, true)
  {
    match ty.reflect(v)
    case NilPointer => Nothing(ty)
    case PointerTo(x) => Maybe(x, true)
    case Plain => Maybe(v, true)
  }

  /** The first flag, when there is one, is false. */
  predicate Refused(ok: seq<bool>) {
    |ok| > 0 && !ok[0]
  }

  /** maybe.go:84-98, the `val, ok` adapter; `ok` is the variadic `ok ...bool`.
      A false first flag gives Nothing before `val` is looked at; every later
      flag is ignored. Otherwise the value goes through the same pointer
      collapsing as Just, which this function repeats (maybe.go:89-96) before
      falling back to Just itself. */
  function From<T>(ty: GoType<T>, val: T, ok: seq<bool>): (r: Maybe<T>)
    requires !Refused(ok) ==> ty.Wrappable(val)
    ensures ZeroWhenAbsent(ty, r)
    ensures Refused(ok) ==> r == Nothing(ty)
    ensures !Refused(ok) ==> r == Just(ty, val)
  {
    if Refused(ok) then Nothing(ty)
    else match ty.reflect(val)
      case NilPointer => Nothing(ty)
      case PointerTo(x) => Maybe(x, true)
      case Plain => Just(ty, val)
  }

  /** maybe.go:103-110: `f` is applied only to a present value, and its result
      is wrapped with Just, so a nil pointer result collapses to Nothing. */
  function Map<A, B>(tb: GoType<B>, f: A --> B, m: Maybe<A>): (r: Maybe<B>)
    requires m.valid ==> f.requires(m.value) && tb.Wrappable(f(m.value))
    ensures ZeroWhenAbsent(tb, r)
    ensures !m.valid ==> r == Nothing(tb)
    ensures m.valid ==> r == Just(tb, f(m.value))
  {
    if m.valid then Just(tb, f(m.value)) else Nothing(tb)
  }

  /** maybe.go:115-122: `f` is applied only to a present value, and whatever it
      returns is the result, with no re-wrapping. */
  function Fmap<A, B>(tb: GoType<B>, f: A --> Maybe<B>, m: Maybe<A>): (r: Maybe<B>)
    requires m.valid ==> f.requires(m.value)
    ensures m.valid ==> r == f(m.value)
    ensures !m.valid ==> r == Nothing(tb) && ZeroWhenAbsent(tb, r)
  {
    if m.valid then f(m.value) else Nothing(tb)
  }

  /** maybe.go:126-133: exactly one branch is evaluated, so only that branch
      needs to be defined on the input. */
  function Match<A, B>(nothing: () --> B, just: A --> B, m: Maybe<A>): (r: B)
    requires m.valid ==> just.requires(m.value)
    requires !m.valid ==> nothing.requires()
    ensures m.valid ==> r == just(m.value)
    ensures !m.valid ==> r == nothing()
  {
    if m.valid then just(m.value) else nothing()
  }

  /** UnmarshalJSON does not panic on `data`: a value it decodes can be
      wrapped with Just. */
  ghost predicate Decodable<T>(ty: GoType<T>, codec: Codec<T>, data: Bytes) {
    var t := UnmarshalPointer(codec, data);
    t.Ok? && t.value.Ref? ==> ty.Wrappable(t.value.target)
  }

  /** maybe.go:39-50 as a function from the receiver and the document to the
      new receiver and the returned error. A decoding error and `null` both
      leave the receiver as it was; only a decoded value replaces it. */
  function Unmarshal<T>(ty: GoType<T>, codec: Codec<T>, m: Maybe<T>, data: Bytes): (r: (Maybe<T>, Option<Error>))
    requires Decodable(ty, codec, data)
    ensures codec.decode(data).Err? && data != Null ==> r == (m, Some(codec.decode(data).error))
    ensures data == Null ==> r == (m, None)
    ensures data != Null && codec.decode(data).Ok? ==>
              r == (Just(ty, codec.decode(data).value), None)
    ensures ZeroWhenAbsent(ty, m) ==> ZeroWhenAbsent(ty, r.0)
  {
    match UnmarshalPointer(codec, data)
    case Err(e) => (m, Some(e))
    case Ok(t) => if t.Ref? then (Just(ty, t.target), None) else (m, None)
  }

  /** A `*Maybe[T]`, the pointer receiver that UnmarshalJSON writes through. */
  class MaybeRef<T> {
    var target: Maybe<T>

    constructor (init: Maybe<T>)
      ensures target == init
    {
      target := init;
    }

    /** maybe.go:39-50: decode into a nil `*T`, return the error untouched,
        and overwrite the receiver only when the pointer came back non-nil. */
    method UnmarshalJSON(ty: GoType<T>, codec: Codec<T>, data: Bytes) returns (err: Option<Error>)
      requires Decodable(ty, codec, data)
      modifies this
      ensures (target, err) == Unmarshal(ty, codec, old(target), data)
      ensures err.Some? || data == Null ==> target == old(target)
      ensures ZeroWhenAbsent(ty, old(target)) ==> ZeroWhenAbsent(ty, target)
    {
      var t := UnmarshalPointer(codec, data);
      if t.Err? {
        return Some(t.error);
      }
      if t.value.Ref? {
        target := Just(ty, t.value.target);
      }
      return None;
    }
  }
}

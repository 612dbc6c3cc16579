# Maybe[T] in Dafny

A model of package `mo`'s `maybe.go`: the generic optional-value container
`Maybe[T]`, a struct holding a `value` and a `valid` flag. The model covers
the constructors `Just`, `Nothing` and `From`, the accessors `HasValue`,
`Value` and `ValueOr`, the combinators `Map`, `Fmap` and `Match`, and the JSON
hooks `MarshalJSON` and `UnmarshalJSON`. It proves their laws, including where
nil-pointer collapsing makes the textbook laws hold only under a condition.

Files:

- `go.dfy` (module `Go`): what Go supplies implicitly. `GoType<T>` holds the
  zero value of `T` and the view reflection gives of each value of `T`: no
  pointer, nil pointer, a pointer whose pointee is a `T`, or a pointer on
  which the type assertion `.(T)` would panic. `Ptr<T>` is a Go `*T`.
- `json.dfy` (module `Json`): `json.Marshal` and `json.Unmarshal` on a `*T`.
  A `Codec<T>` stands for encoding/json's handling of `T` itself. Only the
  literal `null` is fixed.
- `maybe.dfy` (module `Mo`): the `Maybe` datatype and every operation of
  `maybe.go`. `UnmarshalJSON` writes through a pointer receiver, so it is a
  method of the class `MaybeRef`, which stands for a `*Maybe[T]`. The pure
  function `Unmarshal` is its specification.
- `maybe_laws.dfy` (module `MaybeLaws`): functor, monad and eliminator laws,
  the JSON round trip, and what repeated `UnmarshalJSON` calls leave in the
  receiver.
- `maybe_examples.dfy` (module `MaybeExamples`): `Maybe[int]`, `Maybe[*int]`
  and `Maybe[any]` as concrete instances.

Go's closures returned by `Map`, `Fmap` and `Match` are modelled by applying
them at once: Go's `Map(f)(m)` is `Map(tb, f, m)`. The functions passed in
are partial arrows. Each combinator's `requires` demands that only the branch
actually taken is defined, which is how "exactly one branch is evaluated" is
stated.

The model keeps two behaviours of the code that an optional type usually
lacks:

- Decoding `null` does not reset the receiver to Nothing. `UnmarshalJSON`
  assigns only when the decoded pointer is non-nil (maybe.go:45-47), so
  `null` leaves a present value in place (`MaybeLaws.NullKeepsPresentValue`).
- The functor laws do not hold for every `Maybe`. `Map` wraps `f`'s result
  with `Just`, so a nil pointer result collapses to Nothing and the
  composition law fails (`MaybeExamples.MapCompositionFailsOnNilPointer`).
  The identity law needs a `Maybe` that `Just` would rebuild unchanged
  (`MaybeLaws.Canonical`).

## Model

| member | source | states |
|---|---|---|
| `Mo.Maybe.HasValue` | maybe.go:22-24 | true exactly when a value is present |
| `Mo.Maybe.Value` | maybe.go:27-29 | the stored value, with no precondition: on an absent `Maybe` built by the package it is the zero value (`NothingIsEmpty`) |
| `Mo.Nothing` | maybe.go:78-80 | absent, and holding the zero value of `T` |
| `Mo.Maybe.ValueOr` | maybe.go:32-37 | the stored value when present, the fallback when absent |
| `Mo.Maybe.MarshalJSON` | maybe.go:52-60 | a present value is written as `T`'s own encoding of it (errors included), an absent one as `null` |
| `Mo.Just` | maybe.go:64-74 | present exactly when `v` is not a nil pointer; a nil pointer gives exactly Nothing; a non-pointer is stored unchanged; a pointer whose pointee is a `T` is stored dereferenced; an absent result holds the zero value; a pointer whose pointee is not a `T` is excluded, since Go panics on it |
| `Mo.From` | maybe.go:84-98 | a false first flag gives Nothing for any value; no flag or a true first flag gives the same result as Just, nil-pointer collapsing included, even though From repeats the reflection code itself |
| `Mo.Map` | maybe.go:103-110 | Nothing maps to Nothing of the result type; a present value maps to Just of `f`'s result; `f` need only be defined on a present value; the result keeps the zero value when absent |
| `Mo.Fmap` | maybe.go:115-122 | on a present value the result is `f`'s result returned verbatim; on Nothing it is Nothing of the result type; `f` need only be defined on a present value |
| `Mo.Match` | maybe.go:126-133 | the `just` branch's result on a present value, the `nothing` branch's otherwise; only the branch taken need be defined |
| `Mo.Unmarshal` | maybe.go:39-50 | a decoding error is returned and the receiver kept; `null` gives no error and keeps the receiver; any other document sets the receiver to Just of the decoded value; an absent receiver keeps holding the zero value |
| `Mo.MaybeRef.UnmarshalJSON` | maybe.go:39-50 | the receiver and error after the call are those `Unmarshal` gives; on an error or `null` the receiver is untouched |
| `MaybeLaws.NothingIsEmpty` | maybe.go:78-80 | Nothing has no value, and Value() reads the zero value |
| `MaybeLaws.JustStoresPlainValue` | maybe.go:64-74 | for a non-pointer `v`, Just has a value and Value() returns `v` |
| `MaybeLaws.JustCollapsesNilPointer` | maybe.go:65-69 | Just of a nil pointer equals Nothing |
| `MaybeLaws.JustDereferencesOnce` | maybe.go:70-71 | Just of a pointer stores its pointee, and the result is canonical when the pointee is no pointer |
| `MaybeLaws.FromRefused` | maybe.go:86-88 | `From(v, false, ...)` is Nothing for any `v` |
| `MaybeLaws.FromReadsFirstFlagOnly` | maybe.go:86 | two flag lists with the same first flag give the same result |
| `MaybeLaws.FromAcceptedIsJust` | maybe.go:89-97 | `From(v)` and `From(v, true, ...)` equal `Just(v)`, so a nil pointer collapses to Nothing |
| `MaybeLaws.ValueOrLaw` | maybe.go:32-37 | for a non-pointer `v`, `Just(v).ValueOr(x)` is `v`; `Nothing().ValueOr(x)` is `x` |
| `MaybeLaws.MapIdentity` | maybe.go:103-110 | mapping the identity gives back every canonical `Maybe` |
| `MaybeLaws.MapComposition` | maybe.go:103-110 | `Map(g∘f) == Map(g)∘Map(f)` when `f`'s result is no pointer |
| `MaybeLaws.MapIsFmapOfJust` | maybe.go:103-122 | `Map(f)` equals `Fmap` of `Just∘f` |
| `MaybeLaws.FmapLeftIdentity` | maybe.go:115-122 | `Fmap(f)(Just(v)) == f(v)` for a non-pointer `v` |
| `MaybeLaws.FmapRightIdentity` | maybe.go:115-122 | `Fmap(Just)(m) == m` for every canonical `m` |
| `MaybeLaws.FmapAssociative` | maybe.go:115-122 | `Fmap(g)∘Fmap(f) == Fmap(x -> Fmap(g)(f(x)))`, unconditionally |
| `MaybeLaws.MatchSelects` | maybe.go:126-133 | for a non-pointer `v`, Match of Just(v) is `just(v)`; Match of Nothing is `nothing()` |
| `MaybeLaws.MatchIsUniversal` | maybe.go:126-133 | HasValue, ValueOr and Fmap are each an instance of Match |
| `MaybeLaws.MarshalLaw` | maybe.go:52-60 | Nothing is written as `null`; for a non-pointer `v`, Just(v) is written as `v`'s own encoding |
| `MaybeLaws.RoundTrip` | maybe.go:39-60 | unmarshalling MarshalJSON's output into a zero `Maybe` gives back any canonical `m` whose value's encoding is lossless and not `null` |
| `MaybeLaws.NullEncodedValueIsLost` | maybe.go:39-60 | a present value whose own encoding is `null` comes back as Nothing |
| `MaybeLaws.NullKeepsPresentValue` | maybe.go:45-49 | decoding `null` into a present `Maybe` leaves it present and unchanged |
| `MaybeLaws.UnmarshalEachKeepsLastDecoded` | maybe.go:39-50 | after any sequence of documents, the receiver is Just of the last value decoded, or the initial receiver if every document was `null` or malformed |
| `MaybeLaws.UnmarshalEachKeepsZeroWhenAbsent` | maybe.go:39-50 | repeated decoding keeps an absent receiver's value at the zero value |
| `MaybeExamples.JustOnAny` | maybe.go:64-74 | in `Maybe[any]`, Just dereferences `&5` to `5`, collapses a nil `*int`, and keeps a nil interface as a present value |
| `MaybeExamples.JustOnConcretePointer` | maybe.go:65-70 | in `Maybe[*int]`, Just of nil is Nothing and a non-nil pointer is outside the model, since Go panics on it |
| `MaybeExamples.FromOnInt` | maybe.go:84-98 | `From(7, false, true)` is Nothing; `From(7, true, false)` and `From(7)` hold 7 |
| `MaybeExamples.MapCompositionFailsOnNilPointer` | maybe.go:103-110 | a function returning a nil pointer breaks the composition law |
| `MaybeExamples.NothingIntJson` | maybe.go:39-60 | `Nothing[int]` is written as `null`, and `null` decodes into a zero `Maybe[int]` as Nothing |
| `MaybeExamples.UnmarshalIntoJust42` | maybe.go:39-50 | a malformed document reports its error and leaves `Just(42)` in place, and so does `null`, without an error |

## Left out

- encoding/json is not part of this model. `Codec<T>` stands for Go's
  marshalling and unmarshalling of a `T`, and the model assumes nothing
  about it. The round trip is proved for values whose encoding is lossless.
- A `null` surrounded by JSON whitespace: the model treats only the exact
  four bytes `null` as null. Every other document goes to `T`'s codec.
- Go panics. A non-nil pointer whose pointee is not a `T` makes Just, From,
  Map and UnmarshalJSON panic. This is every non-nil value of a concrete
  pointer type. `requires` clauses exclude such values.
- Reflection itself. `GoType.reflect` gives, for each value, what
  `reflect.ValueOf(v).Kind()`, `IsNil()` and `Elem().Interface().(T)` find.
- Pointer identity and aliasing. A `*T` is modelled by what it points to.
- The variadic slice `ok ...bool` is a sequence of flags. Only its first
  element matters.
- Go's currying of `Map`, `Fmap` and `Match`: the returned closure is applied
  directly.
- The text of encoding/json's error values: `Error` carries an uninterpreted
  message.

/** The laws that maybe.go's operations obey, and the places where the pointer
    collapsing of Just makes the textbook laws hold only conditionally. */
module MaybeLaws {
  import opened Go
  import opened Json
  import opened Mo

  /** A `Maybe` that Just would rebuild unchanged from its own value: absent
      with the zero value, or present with a value that Just stores as it is
      (not a nil pointer, and not a pointer Just would dereference). */
  ghost predicate Canonical<T>(ty: GoType<T>, m: Maybe<T>) {
    ZeroWhenAbsent(ty, m) && (m.valid ==> ty.Wrappable(m.value) && Just(ty, m.value) == m)
  }

  // ---------------------------------------------------------------------------
  // Constructors and accessors

  /** Nothing has no value, and Value() reads the zero value of `T`. */
  lemma NothingIsEmpty<T>(ty: GoType<T>)
    ensures !Nothing(ty).HasValue()
    ensures Nothing(ty).Value() == ty.zero
    ensures Canonical(ty, Nothing(ty))
  {
  }

  /** A value that is not a pointer is stored as it is. */
  lemma JustStoresPlainValue<T>(ty: GoType<T>, v: T)
    requires ty.reflect(v).Plain?
    ensures Just(ty, v).HasValue() && Just(ty, v).Value() == v
    ensures Canonical(ty, Just(ty, v))
  {
  }

  /** A nil pointer gives exactly Nothing, never "present, holding nil". */
  lemma JustCollapsesNilPointer<T>(ty: GoType<T>, v: T)
    requires ty.reflect(v).NilPointer?
    ensures Just(ty, v) == Nothing(ty)
  {
  }

  /** Just dereferences a pointer once; the result is canonical when the
      pointee is no pointer. */
  lemma JustDereferencesOnce<T>(ty: GoType<T>, v: T)
    requires ty.reflect(v).PointerTo?
    ensures Just(ty, v).HasValue() && Just(ty, v).Value() == ty.reflect(v).elem
    ensures ty.reflect(ty.reflect(v).elem).Plain? ==> Canonical(ty, Just(ty, v))
  {
  }

  /** A false first flag gives Nothing whatever the value, even one that Just
      would panic on. */
  lemma FromRefused<T>(ty: GoType<T>, v: T, rest: seq<bool>)
    ensures From(ty, v, [false] + rest) == Nothing(ty)
  {
  }

  /** Only the first flag is consulted: the rest never change the result. */
  lemma FromReadsFirstFlagOnly<T>(ty: GoType<T>, v: T, ok: seq<bool>, other: seq<bool>)
    requires |ok| > 0 && |other| > 0 && ok[0] == other[0]
    requires ok[0] ==> ty.Wrappable(v)
    ensures From(ty, v, ok) == From(ty, v, other)
  {
  }

  /** Without flags, or with a true first flag, From is Just, nil pointer
      collapsing included. */
  lemma FromAcceptedIsJust<T>(ty: GoType<T>, v: T, rest: seq<bool>)
    requires ty.Wrappable(v)
    ensures From(ty, v, []) == Just(ty, v)
    ensures From(ty, v, [true] + rest) == Just(ty, v)
    ensures ty.reflect(v).NilPointer? ==> From(ty, v, [true] + rest) == Nothing(ty)
  {
  }

  /** ValueOr returns the value Just stored, and the fallback on Nothing. */
  lemma ValueOrLaw<T>(ty: GoType<T>, v: T, fallback: T)
    requires ty.reflect(v).Plain?
    ensures Just(ty, v).ValueOr(fallback) == v
    ensures Nothing(ty).ValueOr(fallback) == fallback
  {
  }

  // ---------------------------------------------------------------------------
  // Map (functor)

  /** Mapping the identity gives back every canonical `Maybe`. */
  lemma MapIdentity<T>(ty: GoType<T>, m: Maybe<T>)
    requires Canonical(ty, m)
    ensures Map(ty, x => x, m) == m
  {
  }

  /** Mapping `g` after `f` is mapping their composition, provided `f`'s
      result is no pointer Just would rewrite. */
  lemma MapComposition<A, B, C>(tb: GoType<B>, tc: GoType<C>, f: A -> B, g: B -> C, m: Maybe<A>)
    requires m.valid ==> tb.reflect(f(m.value)).Plain? && tc.Wrappable(g(f(m.value)))
    ensures Map(tc, x => g(f(x)), m) == Map(tc, g, Map(tb, f, m))
  {
  }

  /** Map is Fmap of a function that wraps its result with Just. */
  lemma MapIsFmapOfJust<A, B>(tb: GoType<B>, f: A -> B, m: Maybe<A>)
    requires m.valid ==> tb.Wrappable(f(m.value))
    ensures Map(tb, f, m) == Fmap(tb, x requires tb.Wrappable(f(x)) => Just(tb, f(x)), m)
  {
  }

  // ---------------------------------------------------------------------------
  // Fmap (bind)

  /** Left identity: binding a plain value wrapped by Just is applying `f`,
      whatever `f` returns. */
  lemma FmapLeftIdentity<A, B>(ta: GoType<A>, tb: GoType<B>, f: A -> Maybe<B>, v: A)
    requires ta.reflect(v).Plain?
    ensures Fmap(tb, f, Just(ta, v)) == f(v)
  {
  }

  /** Right identity: binding Just gives back every canonical `Maybe`. */
  lemma FmapRightIdentity<T>(ty: GoType<T>, m: Maybe<T>)
    requires Canonical(ty, m)
    ensures Fmap(ty, x requires ty.Wrappable(x) => Just(ty, x), m) == m
  {
  }

  /** Associativity holds with no condition: Fmap never re-wraps. */
  lemma FmapAssociative<A, B, C>(tb: GoType<B>, tc: GoType<C>, f: A -> Maybe<B>, g: B -> Maybe<C>, m: Maybe<A>)
    ensures Fmap(tc, g, Fmap(tb, f, m)) == Fmap(tc, x => Fmap(tc, g, f(x)), m)
  {
  }

  // ---------------------------------------------------------------------------
  // Match (eliminator)

  /** Match selects the branch by presence. */
  lemma MatchSelects<A, B>(ta: GoType<A>, nothing: () -> B, just: A -> B, v: A)
    requires ta.reflect(v).Plain?
    ensures Match(nothing, just, Just(ta, v)) == just(v)
    ensures Match(nothing, just, Nothing(ta)) == nothing()
  {
  }

  /** The other ways of consuming a `Maybe` are instances of Match. */
  lemma MatchIsUniversal<A, B>(tb: GoType<B>, f: A -> Maybe<B>, m: Maybe<A>, fallback: A)
    ensures m.HasValue() == Match(() => false, _ => true, m)
    ensures m.ValueOr(fallback) == Match(() => fallback, x => x, m)
    ensures Fmap(tb, f, m) == Match(() => Nothing(tb), f, m)
  {
  }

  // ---------------------------------------------------------------------------
  // JSON

  /** Nothing is written as `null`; a plain value as its own encoding. */
  lemma MarshalLaw<T>(ty: GoType<T>, codec: Codec<T>, v: T)
    requires ty.reflect(v).Plain?
    ensures Nothing(ty).MarshalJSON(codec) == Ok(Null)
    ensures Just(ty, v).MarshalJSON(codec) == codec.encode(v)
  {
  }

  /** Unmarshalling the output of MarshalJSON into a zero `Maybe` gives back
      any canonical `Maybe` whose value's own encoding is lossless and is not
      `null`. */
  lemma RoundTrip<T>(ty: GoType<T>, codec: Codec<T>, m: Maybe<T>)
    requires Canonical(ty, m)
    requires m.valid ==> Lossless(codec, m.value) && codec.encode(m.value) != Ok(Null)
    ensures m.MarshalJSON(codec).Ok?
    ensures Decodable(ty, codec, m.MarshalJSON(codec).value)
    ensures Unmarshal(ty, codec, Nothing(ty), m.MarshalJSON(codec).value) == (m, None)
  {
    PointerRoundTrip(codec, if m.valid then Ref(m.value) else Nil);
  }

  /** A present value whose own encoding is `null` (a nil slice or map, a nil
      interface) does not survive the round trip: it comes back as Nothing. */
  lemma NullEncodedValueIsLost<T>(ty: GoType<T>, codec: Codec<T>, m: Maybe<T>)
    requires m.valid && codec.encode(m.value) == Ok(Null)
    ensures m.MarshalJSON(codec) == Ok(Null)
    ensures Unmarshal(ty, codec, Nothing(ty), Null) == (Nothing(ty), None)
    ensures Unmarshal(ty, codec, Nothing(ty), Null).0 != m
  {
  }

  /** `null` never clears a receiver: decoding it into a present `Maybe`
      leaves the value in place. */
  lemma NullKeepsPresentValue<T>(ty: GoType<T>, codec: Codec<T>, m: Maybe<T>)
    requires m.valid
    ensures Unmarshal(ty, codec, m, Null) == (m, None)
    ensures Unmarshal(ty, codec, m, Null).0.HasValue()
  {
  }

  // ---------------------------------------------------------------------------
  // UnmarshalJSON applied repeatedly to one receiver

  ghost predicate AllDecodable<T>(ty: GoType<T>, codec: Codec<T>, docs: seq<Bytes>) {
    forall i :: 0 <= i < |docs| ==> Decodable(ty, codec, docs[i])
  }

  /** A non-empty decodable sequence splits into a decodable first document
      and a decodable rest. */
  lemma AllDecodableSplits<T>(ty: GoType<T>, codec: Codec<T>, docs: seq<Bytes>)
    requires AllDecodable(ty, codec, docs) && docs != []
    ensures Decodable(ty, codec, docs[0]) && AllDecodable(ty, codec, docs[1..])
  {
  }

  /** The receiver after UnmarshalJSON has been called with each document of
      `docs` in turn; errors are discarded. */
  ghost function UnmarshalEach<T>(ty: GoType<T>, codec: Codec<T>, m: Maybe<T>, docs: seq<Bytes>): Maybe<T>
    requires AllDecodable(ty, codec, docs)
    decreases |docs|
  {
    if docs == [] then m
    else
      AllDecodableSplits(ty, codec, docs);
      UnmarshalEach(ty, codec, Unmarshal(ty, codec, m, docs[0]).0, docs[1..])
  }

  /** The value decoded from the last document of `docs` that is neither
      `null` nor malformed, if there is one. */
  function LastDecoded<T>(codec: Codec<T>, docs: seq<Bytes>): Option<T>
    decreases |docs|
  {
    if docs == [] then None
    else match LastDecoded(codec, docs[1..])
      case Some(v) => Some(v)
      case None =>
        match UnmarshalPointer(codec, docs[0])
        case Ok(Ref(v)) => Some(v)
        case _ => None
  }

  /** After any sequence of documents, the receiver is Just of the last value
      decoded, or the receiver it started as when every document was `null` or
      malformed. */
  lemma {:induction false} UnmarshalEachKeepsLastDecoded<T>(ty: GoType<T>, codec: Codec<T>, m: Maybe<T>, docs: seq<Bytes>)
    requires AllDecodable(ty, codec, docs)
    ensures LastDecoded(codec, docs).None? ==> UnmarshalEach(ty, codec, m, docs) == m
    ensures LastDecoded(codec, docs).Some? ==>
              ty.Wrappable(LastDecoded(codec, docs).value) &&
              UnmarshalEach(ty, codec, m, docs) == Just(ty, LastDecoded(codec, docs).value)
    decreases |docs|
  {
    if docs != [] {
      AllDecodableSplits(ty, codec, docs);
      UnmarshalEachKeepsLastDecoded(ty, codec, Unmarshal(ty, codec, m, docs[0]).0, docs[1..]);
    }
  }

  /** Repeated decoding keeps the invariant that an absent receiver stores
      the zero value. */
  lemma {:induction false} UnmarshalEachKeepsZeroWhenAbsent<T>(ty: GoType<T>, codec: Codec<T>, m: Maybe<T>, docs: seq<Bytes>)
    requires AllDecodable(ty, codec, docs)
    requires ZeroWhenAbsent(ty, m)
    ensures ZeroWhenAbsent(ty, UnmarshalEach(ty, codec, m, docs))
  {
    UnmarshalEachKeepsLastDecoded(ty, codec, m, docs);
  }
}

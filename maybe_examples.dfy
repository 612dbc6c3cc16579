/** Concrete instances of the general model: `Maybe[int]`, `Maybe[*int]` and
    `Maybe[any]`, showing what pointer collapsing does to each. */
module MaybeExamples {
  import opened Go
  import opened Json
  import opened Mo

  /** The values of Go's `any` that the examples use: the nil interface, an
      `int`, and an `*int`. */
  datatype Any = NilInterface | Int(n: int) | IntPtr(p: Ptr<int>)

  /** Reflection on an `any`: a nil interface has Kind Invalid, so it is no
      pointer; an `*int` dereferences to an `int`, which is an `any`. */
  function ReflectAny(a: Any): Reflected<Any> {
    match a
    case IntPtr(Nil) => NilPointer
    case IntPtr(Ref(n)) => PointerTo(Int(n))
    case _ => Plain
  }

  const AnyType: GoType<Any> := GoType(NilInterface, ReflectAny)

  const IntType: GoType<int> := GoType(0, _ => Plain)

  /** `*int`: a non-nil value dereferences to an `int`, which is not an `*int`,
      so Just panics on it. */
  const IntPtrType: GoType<Ptr<int>> := GoType(Nil, (p: Ptr<int>) => if p.Nil? then NilPointer else PointerPanics)

  /** In `Maybe[any]`, Just dereferences a non-nil pointer, collapses a nil
      one, and keeps the nil interface as a present value. */
  lemma JustOnAny()
    ensures Just(AnyType, IntPtr(Ref(5))) == Maybe(Int(5), true)
    ensures Just(AnyType, IntPtr(Nil)) == Nothing(AnyType)
    ensures Just(AnyType, NilInterface).HasValue()
    ensures Just(AnyType, NilInterface).Value() == Nothing(AnyType).Value()
  {
  }

  /** In `Maybe[*int]` only the nil pointer can be passed to Just, and it
      gives Nothing. */
  lemma JustOnConcretePointer()
    ensures Just(IntPtrType, Nil) == Nothing(IntPtrType)
    ensures !IntPtrType.Wrappable(Ref(1))
  {
  }

  /** `From(7, false, true)` is Nothing, `From(7, true, false)` and `From(7)`
      are `Just(7)`. */
  lemma FromOnInt()
    ensures From(IntType, 7, [false, true]) == Nothing(IntType)
    ensures From(IntType, 7, [true, false]) == Maybe(7, true)
    ensures From(IntType, 7, []) == Maybe(7, true)
  {
  }

  /** The composition law of Map fails when the inner function returns a nil
      pointer: Map(f) collapses it to Nothing before `g` can see it, whereas
      the composition hands it to `g`. */
  lemma MapCompositionFailsOnNilPointer()
    ensures var f := (n: int) => IntPtr(Nil);
            var g := (a: Any) => if a == IntPtr(Nil) then Int(0) else a;
            && Map(AnyType, x => g(f(x)), Just(IntType, 1)) == Maybe(Int(0), true)
            && Map(AnyType, g, Map(AnyType, f, Just(IntType, 1))) == Nothing(AnyType)
  {
  }

  /** `Nothing[int]` is written as `null`, and `null` decodes into a zero
      `Maybe[int]` as Nothing, whatever `int`'s own codec is. */
  lemma NothingIntJson(codec: Codec<int>)
    ensures Nothing(IntType).MarshalJSON(codec) == Ok(Null)
    ensures Unmarshal(IntType, codec, Nothing(IntType), Null) == (Nothing(IntType), None)
  {
  }

  /** A caller of UnmarshalJSON on a receiver holding `Just(42)`: a document
      `int` cannot decode is reported and the receiver keeps 42; `null` is no
      error and the receiver still keeps 42. */
  method UnmarshalIntoJust42(codec: Codec<int>, bad: Bytes) returns (err: Option<Error>, afterBad: Maybe<int>, nullErr: Option<Error>, afterNull: Maybe<int>)
    requires bad != Null && codec.decode(bad).Err?
    ensures err == Some(codec.decode(bad).error)
    ensures afterBad == Maybe(42, true)
    ensures nullErr == None && afterNull == Maybe(42, true)
  {
    var r := new MaybeRef(Just(IntType, 42));
    err := r.UnmarshalJSON(IntType, codec, bad);
    afterBad := r.target;
    nullErr := r.UnmarshalJSON(IntType, codec, Null);
    afterNull := r.target;
  }
}

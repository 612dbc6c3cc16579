/** What the Go runtime supplies to maybe.go implicitly: the zero value of a
    type parameter, nil-able pointers and errors, and the view that package
    reflect gives of a value. */
module Go {

  /** Go's `error`: a nil error is `None`. */
  datatype Option<T> = None | Some(value: T)

  /** The error values that encoding/json reports; their text is not modelled. */
  datatype Error = Error(message: string)

  /** A Go pointer `*T`: nil, or the address of a `T`. Addresses themselves
      (aliasing) are not modelled, only what the pointer points to. */
  datatype Ptr<T> = Nil | Ref(target: T)

  /** What `reflect.ValueOf(v)` reveals about a value `v` of type parameter `T`
      in Just and From (maybe.go:65-72, 89-96):
      - Plain: `Kind() != reflect.Ptr` (this includes a nil interface, whose
        Kind is Invalid, and nil slices and maps);
      - NilPointer: `Kind() == reflect.Ptr` and `IsNil()`;
      - PointerTo(elem): a non-nil pointer whose pointee, converted back with
        `.Interface().(T)`, is `elem` (possible when `T` is an interface type);
      - PointerPanics: a non-nil pointer whose pointee is not a `T`, so the
        type assertion panics (every non-nil value of a concrete pointer type). */
  datatype Reflected<T> = Plain | NilPointer | PointerTo(elem: T) | PointerPanics

  /** The facts about a Go type `T` that maybe.go relies on without naming
      them: its zero value and how reflection sees each of its values. */
  datatype GoType<!T> = GoType(zero: T, reflect: T -> Reflected<T>) {

    /** Wrapping `v` in Just does not panic. */
    predicate Wrappable(v: T) {
      !reflect(v).PointerPanics?
    }
  }
}

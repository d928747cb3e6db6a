/** The two-variant success/failure envelope of src/lib/result.ts. */
module Results {

  /** `Ok(v)` is the object `{ok: true, value: v}` and `Err(e)` is `{ok: false, value: e}`.
      Dafny cannot give one destructor two types, so the failure payload is named `error`. */
  datatype Result<+T, +E> = Ok(value: T) | Err(error: E) {

    /** The `ok` discriminant of the object literal. */
    predicate ok()
    {
      Ok?
    }
  }

  /** The `ok` flag alone tells the two variants apart: a result is exactly one of them. */
  lemma OkFlagDecides<T, E>(r: Result<T, E>)
    ensures r.ok() <==> r.Ok?
    ensures !r.ok() <==> r.Err?
    ensures r.Ok? != r.Err?
  {
  }

  /** Both constructors store their payload unchanged and set the flag they promise. */
  lemma ConstructorsKeepPayload<T, E>(v: T, e: E)
    ensures Result<T, E>.Ok(v).ok() && Result<T, E>.Ok(v).value == v
    ensures !Result<T, E>.Err(e).ok() && Result<T, E>.Err(e).error == e
  {
  }
}

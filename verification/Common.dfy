/** Small shared vocabulary: optional values and results that carry either a value or a rejection. */
module Common {

  datatype Option<+T> = None | Some(value: T)

  /** The outcome of a routine that throws in the original: a value, or a rejection. */
  datatype Result<+T> = Ok(value: T) | Invalid {
    predicate IsFailure() {
      Invalid?
    }

    function PropagateFailure<U>(): Result<U>
      requires Invalid?
    {
      Invalid
    }

    function Extract(): T
      requires Ok?
    {
      value
    }
  }

  lemma SomeMember<T>(s: set<T>) returns (x: T)
    requires s != {}
    ensures x in s
  {
    x :| x in s;
  }
}

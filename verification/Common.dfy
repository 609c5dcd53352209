/** Byte strings, optional values and results shared by every module. */
module Common {

  type Byte = x: int | 0 <= x < 256
  type Bytes = seq<Byte>

  datatype Option<+T> = None | Some(value: T)

  /** The ways an operation can fail: exceptions and failed assertions. */
  datatype Error =
    | NotFound          // NotFoundException
    | InvalidArgument   // std::invalid_argument
    | LogicError        // std::logic_error
    | RuntimeError      // std::runtime_error
    | Aborted           // ConcordAssert or std::terminate

  datatype Result<+T> = Ok(value: T) | Err(error: Error) {
    predicate IsFailure() {
      Err?
    }

    function PropagateFailure<U>(): Result<U>
      requires Err?
    {
      Err(error)
    }

    function Extract(): T
      requires Ok?
    {
      value
    }
  }

  /** The greatest element of a nonempty set of ids. */
  function MaxOf(ids: set<nat>): (m: nat)
    requires ids != {}
    ensures m in ids
    ensures forall i :: i in ids ==> i <= m
  {
    assert exists m :: m in ids && forall i :: i in ids ==> i <= m by {
      var _ := MaxExists(ids);
    }
    var m :| m in ids && forall i :: i in ids ==> i <= m;
    m
  }

  /** The least element of a nonempty set of ids. */
  function MinOf(ids: set<nat>): (m: nat)
    requires ids != {}
    ensures m in ids
    ensures forall i :: i in ids ==> m <= i
  {
    assert exists m :: m in ids && forall i :: i in ids ==> m <= i by {
      var _ := MinExists(ids);
    }
    var m :| m in ids && forall i :: i in ids ==> m <= i;
    m
  }

  lemma {:induction false} MaxExists(ids: set<nat>) returns (m: nat)
    requires ids != {}
    ensures m in ids && forall i :: i in ids ==> i <= m
  {
    m :| m in ids;
    var rest := ids - {m};
    assert forall i :: i in ids ==> i == m || i in rest;
    if rest != {} {
      var top := MaxExists(rest);
      if m < top {
        m := top;
      }
    }
  }

  lemma {:induction false} MinExists(ids: set<nat>) returns (m: nat)
    requires ids != {}
    ensures m in ids && forall i :: i in ids ==> m <= i
  {
    m :| m in ids;
    var rest := ids - {m};
    assert forall i :: i in ids ==> i == m || i in rest;
    if rest != {} {
      var low := MinExists(rest);
      if low < m {
        m := low;
      }
    }
  }
}

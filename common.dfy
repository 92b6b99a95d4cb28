/**
 * Values shared by every module of the model: optional values (Java's null,
 * Python's None), results of operations that can raise, and the 128-bit
 * identifiers the resource manager hands out.
 */
module Common {

  datatype Option<T> = None | Some(value: T)

  /** The outcome of an operation that either returns a value or raises. */
  datatype Result<T, E> = Success(value: T) | Failure(error: E)
  {
    predicate IsFailure() { Failure? }

    function PropagateFailure<U>(): Result<U, E>
      requires Failure?
    {
      Failure(error)
    }

    function Extract(): T
      requires Success?
    {
      value
    }
  }

  /** 2^128: a UUID is a 128-bit value (two 64-bit halves). */
  const UUID_BOUND: int := 0x1_0000_0000_0000_0000_0000_0000_0000_0000

  /** A reservation, client or expansion identifier. Equality is equality of the 128 bits. */
  type Uuid = u: int | 0 <= u < UUID_BOUND

  predicate NoDuplicates<T(==)>(s: seq<T>)
  {
    forall i, j :: 0 <= i < j < |s| ==> s[i] != s[j]
  }

  /** The elements of `s`, each once: what copying a list into a hash set and back keeps (the order is not promised). */
  function Dedup<T(==,!new)>(s: seq<T>): (r: seq<T>)
    ensures NoDuplicates(r)
    ensures forall x :: x in r <==> x in s
    ensures |r| <= |s|
  {
    if s == [] then []
    else
      var rest := Dedup(s[1..]);
      if s[0] in rest then
        rest
      else
        assert forall i :: 0 < i < |[s[0]] + rest| ==> ([s[0]] + rest)[i] == rest[i - 1];
        [s[0]] + rest
  }

  /**
   * The order in which a loop over a hash set or over a hash map's keys
   * visits them: each element exactly once, in an order the model leaves
   * open.
   */
  method IterationOrder<T(==)>(s: set<T>) returns (order: seq<T>)
    ensures NoDuplicates(order)
    ensures forall x :: x in order <==> x in s
    ensures |order| == |s|
  {
    order := [];
    var todo := s;
    while todo != {}
      invariant todo <= s
      invariant NoDuplicates(order)
      invariant forall x :: x in order <==> x in s - todo
      invariant |order| == |s - todo|
      decreases |todo|
    {
      var x :| x in todo;
      assert s - (todo - {x}) == (s - todo) + {x};
      order := order + [x];
      todo := todo - {x};
    }
  }
}

/** Shared vocabulary: the Java exception kinds as error values, result
    wrappers, java.awt.Point, and a counting lemma about finite sets. */
module Common {

  /** IllegalArgumentException, IllegalStateException and the
      NoSuchElementException a Scanner throws once its input is exhausted,
      with their messages. */
  datatype Error = IllegalArgument(message: string) | IllegalState(message: string) | NoSuchElement(message: string)

  /** A value or the exception that the Java method would have thrown. */
  datatype Result<T> = Ok(value: T) | Err(error: Error)

  /** The outcome of a void Java method: it returned, or it threw. */
  datatype Outcome = Pass | Fail(error: Error)

  /** java.awt.Point: x is the column, y the row. */
  datatype Point = Point(x: int, y: int)

  function Min(a: int, b: int): (m: int)
    ensures m <= a && m <= b && (m == a || m == b)
  {
    if a <= b then a else b
  }

  /** Two finite sets put in one-to-one correspondence by f and its inverse g
      have the same number of elements. */
  lemma {:induction false} BijectionSameSize<A, B>(s: set<A>, t: set<B>, f: A -> B, g: B -> A)
    requires forall a :: a in s ==> f(a) in t && g(f(a)) == a
    requires forall b :: b in t ==> g(b) in s && f(g(b)) == b
    ensures |s| == |t|
    decreases s
  {
    if s == {} {
      assert forall b :: b !in t;
      assert t == {};
    } else {
      var a :| a in s;
      BijectionSameSize(s - {a}, t - {f(a)}, f, g);
    }
  }
}

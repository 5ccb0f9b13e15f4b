/** Small shared vocabulary: optional values (Java's null / Optional) and the
    arbitrary iteration order of a Java HashSet. */
module Base {

  /** A Java reference that may be null, or a java.util.Optional. */
  datatype Option<+T> = None | Some(value: T)

  /** The Java exceptions the core can raise. */
  datatype JavaException =
    | NullPointerException
    | IllegalArgumentException
    | IllegalStateException
    | NoSuchElementException
    | SlotNotDefinedException
    | IllegalOperationException
    | StringIndexOutOfBoundsException
    | ConcurrentModificationException

  /** How a call that returns nothing ends: normally, or by throwing. */
  datatype Outcome = Normal | Throws(exception: JavaException)

  /** How a call that returns a value ends: with the value, or by throwing. */
  datatype Result<+T> = Success(value: T) | Failure(error: JavaException)

  /** No two positions of `s` hold the same element. */
  predicate Distinct<T(==)>(s: seq<T>) {
    forall i, j :: 0 <= i < j < |s| ==> s[i] != s[j]
  }

  /** `order` visits every element of `s` exactly once, in some order:
      what a `forEach` over a java.util.HashSet does. */
  predicate IsEnumeration<T(==)>(order: seq<T>, s: set<T>) {
    Distinct(order) && Elements(order) == s
  }

  /** Picks an iteration order for a hash set. The order is left open:
      the caller may rely only on every element being visited exactly once. */
  method Enumerate<T(==)>(s: set<T>) returns (order: seq<T>)
    ensures IsEnumeration(order, s)
    ensures |order| == |s|
  {
    order := [];
    var rest := s;
    while rest != {}
      invariant rest <= s
      invariant Distinct(order)
      invariant Elements(order) == s - rest
      invariant |order| + |rest| == |s|
      decreases rest
    {
      var x :| x in rest;
      assert Elements(order + [x]) == Elements(order) + {x};
      order := order + [x];
      rest := rest - {x};
    }
  }

  /** The elements of a sequence, as a set. */
  function Elements<T>(s: seq<T>): set<T> {
    set x | x in s
  }
}

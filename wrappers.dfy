/** Option and Result values for the absent keys, failed loads and raised
    exceptions of the modelled handlers. */
module Wrappers {

  datatype Option<+T> = None | Some(value: T)

  /** A raised exception: the name of its type and its message (`str(e)`). */
  datatype Exception = Exception(kind: string, message: string)

  /** `Failure` carries the exception that a call raised. */
  datatype Result<+R> = Success(value: R) | Failure(error: Exception)

  /** The `details` text both servers report for a caught exception:
      `f"An error of type {type(e).__name__} occurred: {str(e)}"`. */
  function Details(e: Exception): string
  {
    "An error of type " + e.kind + " occurred: " + e.message
  }

  /** The details text determines the exception when its type name has no
      space, as Python class names never do. */
  lemma DetailsInjective(e1: Exception, e2: Exception)
    requires ' ' !in e1.kind && ' ' !in e2.kind
    ensures Details(e1) == Details(e2) <==> e1 == e2
  {
    if Details(e1) == Details(e2) {
      var d := Details(e1);
      assert d[17..] == e1.kind + (" occurred: " + e1.message);
      assert d[17..] == e2.kind + (" occurred: " + e2.message);
      UntilSpaceOf(e1.kind, " occurred: " + e1.message);
      UntilSpaceOf(e2.kind, " occurred: " + e2.message);
      assert e1.kind == e2.kind;
      var n := 17 + |e1.kind| + 11;
      assert d[n..] == e1.message;
      assert d[n..] == e2.message;
    }
  }

  /** The text before the first space. */
  function UntilSpace(s: string): string
  {
    if s == [] || s[0] == ' ' then [] else [s[0]] + UntilSpace(s[1..])
  }

  /** A word without spaces is recovered from the text it starts, when a
      space follows it. */
  lemma {:induction false} UntilSpaceOf(a: string, x: string)
    requires ' ' !in a && |x| > 0 && x[0] == ' '
    ensures UntilSpace(a + x) == a
    decreases |a|
  {
    if a == [] {
      assert a + x == x;
    } else {
      assert (a + x)[0] == a[0];
      assert (a + x)[1..] == a[1..] + x;
      UntilSpaceOf(a[1..], x);
    }
  }
}

/** The optional-value type used for JavaScript's `null` / `undefined`. */
module Wrappers {

  datatype Option<+T> = None | Some(value: T)

  /** Number of present values in a sequence of optional values. */
  function CountSome<T>(s: seq<Option<T>>): nat
    decreases |s|
  {
    if s == [] then 0
    else CountSome(s[..|s| - 1]) + (if s[|s| - 1].Some? then 1 else 0)
  }

  lemma {:induction false} CountSomeAppend<T>(a: seq<Option<T>>, b: seq<Option<T>>)
    ensures CountSome(a + b) == CountSome(a) + CountSome(b)
    decreases |b|
  {
    if b != [] {
      var b' := b[..|b| - 1];
      assert (a + b)[..|a + b| - 1] == a + b';
      CountSomeAppend(a, b');
    } else {
      assert a + b == a;
    }
  }
}

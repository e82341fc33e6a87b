/** Optional values, used wherever the JavaScript source reads a property that may be
    `null` or `undefined`. */
module Wrappers {

  datatype Option<+T> = None | Some(value: T) {

    /** The wrapped value, or `default` when absent (JavaScript's `x ?? default`). */
    function GetOr(default: T): T {
      match this
      case Some(v) => v
      case None => default
    }
  }

  /** The first present value of `xs`, as a chain of `??` operators picks it. */
  function FirstSome<T>(xs: seq<Option<T>>): (r: Option<T>)
    ensures r.None? <==> forall i :: 0 <= i < |xs| ==> xs[i].None?
    ensures r.Some? ==> exists i :: 0 <= i < |xs| && xs[i] == r && forall j :: 0 <= j < i ==> xs[j].None?
  {
    if |xs| == 0 then None
    else if xs[0].Some? then xs[0]
    else
      var r := FirstSome(xs[1..]);
      assert forall i :: 1 <= i < |xs| ==> xs[i] == xs[1..][i - 1];
      r
  }

  /** A chain of three `??`s: the first present of the three options. */
  lemma FirstSomeOfThree<T>(a: Option<T>, b: Option<T>, c: Option<T>)
    ensures FirstSome([a, b, c]) == if a.Some? then a else if b.Some? then b else c
  {
    assert [a, b, c][1..] == [b, c];
    assert [b, c][1..] == [c];
    assert [c][1..] == [];
    if a.None? {
      assert FirstSome([a, b, c]) == FirstSome([b, c]);
      if b.None? {
        assert FirstSome([b, c]) == FirstSome([c]);
        assert FirstSome([c]) == if c.Some? then c else FirstSome([]);
      }
    }
  }
}

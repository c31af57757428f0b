// Option and Result, the shapes the modelled Python code uses for "maybe None"
// and for "returns a value or raises".

module Wrappers {

  datatype Option<T> = None | Some(value: T)

  /** The Python exception classes that the modelled code raises or lets escape.
      `binascii.Error` and `UnicodeDecodeError` are subclasses of ValueError in
      Python and are reported as ValueError here. */
  datatype Error =
    | AssertionError       // a failed `assert`
    | StructError          // struct.pack/unpack on a buffer of the wrong size or a value out of range
    | ValueError           // explicit `raise ValueError`, int()/bytes.index() failures, base64 errors
    | NotImplementedError  // FlipEntry.dump
    | KeyError             // a dictionary lookup of an absent key
    | TypeError            // a call with the wrong number of arguments, arithmetic on None
    | AttributeError       // a missing attribute, such as NAME on an unknown entry
    | ZeroDivisionError    // division by zero
    | IndexError           // a list index out of range

  datatype Result<T> = Ok(value: T) | Err(error: Error)
  {
    predicate IsFailure() { Err? }

    function PropagateFailure<U>(): Result<U>
      requires Err?
    {
      Err(error)
    }

    function Extract(): T
      requires Ok?
    {
      value
    }
  }

  /** xs followed by the list a computation produced, or its error. */
  function Prepend<T>(xs: seq<T>, r: Result<seq<T>>): Result<seq<T>>
  {
    if r.Ok? then Ok(xs + r.value) else r
  }

  lemma PrependAssoc<T>(xs: seq<T>, ys: seq<T>, r: Result<seq<T>>)
    ensures Prepend(xs, Prepend(ys, r)) == Prepend(xs + ys, r)
  {
    if r.Ok? {
      assert xs + (ys + r.value) == (xs + ys) + r.value;
    }
  }

  /** One more item moved from what is still to come to what is collected. */
  lemma PrependStep<T>(whole: Result<seq<T>>, out: seq<T>, r: Result<seq<T>>, x: T, rest: Result<seq<T>>)
    requires whole == Prepend(out, r) && r == Prepend([x], rest)
    ensures whole == Prepend(out + [x], rest)
  {
    PrependAssoc(out, [x], rest);
  }

  /** Prepending to an error keeps the error. */
  lemma PrependErr<T>(xs: seq<T>, r: Result<seq<T>>)
    requires r.Err?
    ensures Prepend(xs, r) == r
  {
  }

  /** Prepending to nothing gives the prefix. */
  lemma PrependAll<T>(xs: seq<T>, r: Result<seq<T>>)
    requires r == Ok([])
    ensures Prepend(xs, r) == Ok(xs)
  {
    assert xs + [] == xs;
  }

  /** The head of a list in front of its tail gives the list. */
  lemma PrependCons<T>(xs: seq<T>, r: Result<seq<T>>)
    requires xs != [] && r == Ok(xs[1..])
    ensures Prepend([xs[0]], r) == Ok(xs)
  {
    assert [xs[0]] + xs[1..] == xs;
  }

  lemma PrependNone<T>(r: Result<seq<T>>)
    ensures Prepend([], r) == r
  {
    if r.Ok? {
      assert [] + r.value == r.value;
    }
  }

  lemma ConcatAssoc<T>(a: seq<T>, b: seq<T>, c: seq<T>)
    ensures (a + b) + c == a + (b + c)
  {
  }

  /** Each element of xs read by f, in order, or the error of the first one
      that fails: a loop that appends f's result and stops at the first
      error. */
  function MapResult<A, B>(f: A -> Result<B>, xs: seq<A>): (r: Result<seq<B>>)
    ensures r.Ok? ==> |r.value| == |xs|
  {
    if xs == [] then Ok([])
    else
      var ys :- MapResult(f, xs[..|xs| - 1]);
      var y :- f(xs[|xs| - 1]);
      Ok(ys + [y])
  }

  /** Each result is f of its element, and the whole fails exactly when one
      element does. */
  lemma {:induction false} MapResultEach<A, B>(f: A -> Result<B>, xs: seq<A>)
    ensures MapResult(f, xs).Ok? ==> forall i :: 0 <= i < |xs| ==> f(xs[i]) == Ok(MapResult(f, xs).value[i])
    ensures MapResult(f, xs).Ok? <==> forall i :: 0 <= i < |xs| ==> f(xs[i]).Ok?
  {
    if xs != [] {
      var pre := xs[..|xs| - 1];
      MapResultEach(f, pre);
      assert forall i :: 0 <= i < |pre| ==> pre[i] == xs[i];
    }
  }

  /** Once a prefix fails, the whole fails with the same error. */
  lemma {:induction false} MapResultFails<A, B>(f: A -> Result<B>, xs: seq<A>, n: nat)
    requires n <= |xs| && MapResult(f, xs[..n]).Err?
    ensures MapResult(f, xs) == MapResult(f, xs[..n])
    decreases |xs| - n
  {
    if n < |xs| {
      assert xs[..n + 1][..n] == xs[..n];
      MapResultFails(f, xs, n + 1);
    } else {
      assert xs[..n] == xs;
    }
  }
}

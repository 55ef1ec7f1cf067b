/** Option and Result types shared by the whole model. */
module Wrappers {

  datatype Option<+T> = None | Some(value: T)

  /** Why a computation over a loaded document did not produce a value.
      `Raised` stands for any Python exception (AttributeError, TypeError,
      KeyError, ...) escaping the extraction code; the model states exactly
      when one is raised, not which one. `ParseError` and `ReadError` are the
      failures of the abstract file loader. */
  datatype Error = Raised | ParseError(message: string) | ReadError(message: string)

  datatype Result<+T> = Ok(value: T) | Err(error: Error)

  /** Concatenation of two fallible sequence results, the first failure winning
      (the order in which a loop would hit them). */
  function Concat<T>(a: Result<seq<T>>, b: Result<seq<T>>): (r: Result<seq<T>>)
    ensures r.Ok? <==> a.Ok? && b.Ok?
    ensures r.Ok? ==> r.value == a.value + b.value
  {
    match a
    case Err(e) => Err(e)
    case Ok(x) =>
      match b
      case Err(e) => Err(e)
      case Ok(y) => Ok(x + y)
  }

  /** The results of `f` over `xs`, concatenated in order: the value a loop
      builds by extending one list with each of them, stopping at the first
      failure. */
  function Collect<T, U>(xs: seq<T>, f: T -> Result<seq<U>>): Result<seq<U>>
  {
    if xs == [] then Ok([])
    else Concat(Collect(xs[..|xs| - 1], f), f(xs[|xs| - 1]))
  }

  lemma CollectStep<T, U>(xs: seq<T>, f: T -> Result<seq<U>>, i: nat)
    requires i < |xs|
    ensures Collect(xs[..i + 1], f) == Concat(Collect(xs[..i], f), f(xs[i]))
  {
    assert xs[..i + 1][..i] == xs[..i];
  }

  lemma CollectAll<T, U>(xs: seq<T>, f: T -> Result<seq<U>>)
    ensures Collect(xs[..|xs|], f) == Collect(xs, f)
  {
    assert xs[..|xs|] == xs;
  }

  /** Once a prefix fails, the whole fails with the same error. */
  lemma {:induction false} CollectErr<T, U>(xs: seq<T>, f: T -> Result<seq<U>>, i: nat)
    requires i <= |xs| && Collect(xs[..i], f).Err?
    ensures Collect(xs, f) == Collect(xs[..i], f)
  {
    if i == |xs| {
      CollectAll(xs, f);
    } else {
      var init := xs[..|xs| - 1];
      assert init[..i] == xs[..i];
      CollectErr(init, f, i);
    }
  }

  /** The whole succeeds exactly when every part does. */
  lemma {:induction false} CollectOk<T, U>(xs: seq<T>, f: T -> Result<seq<U>>)
    ensures Collect(xs, f).Ok? <==> forall i :: 0 <= i < |xs| ==> f(xs[i]).Ok?
  {
    if xs != [] {
      var init := xs[..|xs| - 1];
      CollectOk(init, f);
      assert forall i :: 0 <= i < |init| ==> init[i] == xs[i];
    }
  }

  /** On success, an element is in the whole exactly when it is in one of
      the parts. */
  lemma {:induction false} CollectIn<T, U>(xs: seq<T>, f: T -> Result<seq<U>>, u: U)
    requires Collect(xs, f).Ok?
    ensures u in Collect(xs, f).value <==>
      exists i :: 0 <= i < |xs| && f(xs[i]).Ok? && u in f(xs[i]).value
  {
    if xs != [] {
      var init := xs[..|xs| - 1];
      CollectIn(init, f, u);
      if exists i :: 0 <= i < |init| && f(init[i]).Ok? && u in f(init[i]).value {
        var i :| 0 <= i < |init| && f(init[i]).Ok? && u in f(init[i]).value;
        assert init[i] == xs[i];
      }
      if exists i :: 0 <= i < |xs| && f(xs[i]).Ok? && u in f(xs[i]).value {
        var i :| 0 <= i < |xs| && f(xs[i]).Ok? && u in f(xs[i]).value;
        if i < |init| {
          assert init[i] == xs[i];
        }
      }
    }
  }
}

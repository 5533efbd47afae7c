/** Option and Result, used wherever a lookup can miss or a script step can fail. */
module Wrappers {

  datatype Option<+T> = None | Some(value: T)

  datatype Result<+R, +E> = Success(value: R) | Failure(error: E)

  /** Apply `f` to each element in order, stopping at the first failure. */
  function Traverse<T, U, E>(xs: seq<T>, f: T -> Result<U, E>): Result<seq<U>, E>
    decreases |xs|
  {
    if |xs| == 0 then Success([])
    else
      match Traverse(xs[..|xs| - 1], f)
      case Failure(e) => Failure(e)
      case Success(ys) =>
        match f(xs[|xs| - 1])
        case Failure(e) => Failure(e)
        case Success(y) => Success(ys + [y])
  }

  /**
   * The traversal succeeds exactly when `f` succeeds on every element, and
   * then holds the results in order.
   */
  lemma {:induction false} TraverseSuccess<T, U, E>(xs: seq<T>, f: T -> Result<U, E>)
    ensures var r := Traverse(xs, f);
      && (r.Success? <==> forall i | 0 <= i < |xs| :: f(xs[i]).Success?)
      && (r.Success? ==>
            && |r.value| == |xs|
            && forall i | 0 <= i < |xs| :: r.value[i] == f(xs[i]).value)
    decreases |xs|
  {
    if |xs| > 0 {
      var n := |xs| - 1;
      TraverseSuccess(xs[..n], f);
      assert forall i | 0 <= i < n :: xs[..n][i] == xs[i];
    }
  }

  /** Otherwise it fails with the error of the first element on which `f` fails. */
  lemma {:induction false} TraverseFirstFailure<T, U, E>(xs: seq<T>, f: T -> Result<U, E>)
    requires Traverse(xs, f).Failure?
    ensures exists k | 0 <= k < |xs| ::
      && f(xs[k]) == Failure(Traverse(xs, f).error)
      && forall i | 0 <= i < k :: f(xs[i]).Success?
    decreases |xs|
  {
    var n := |xs| - 1;
    var init := xs[..n];
    assert forall i | 0 <= i < n :: init[i] == xs[i];
    var e := Traverse(xs, f).error;
    if Traverse(init, f).Failure? {
      TraverseFirstFailure(init, f);
      var k :| 0 <= k < n && f(init[k]) == Failure(e)
        && forall i | 0 <= i < k :: f(init[i]).Success?;
      assert f(xs[k]) == Failure(e);
    } else {
      TraverseSuccess(init, f);
      assert f(xs[n]) == Failure(e);
    }
  }

  /** One more element: its result is appended, or its failure ends the traversal. */
  lemma TraverseNext<T, U, E>(xs: seq<T>, i: nat, f: T -> Result<U, E>, ys: seq<U>)
    requires i < |xs| && Traverse(xs[..i], f) == Success(ys)
    ensures Traverse(xs[..i + 1], f) ==
      match f(xs[i])
      case Failure(e) => Failure(e)
      case Success(y) => Success(ys + [y])
  {
    assert xs[..i + 1][..i] == xs[..i];
  }

  /** A failure on a prefix is the failure of the whole traversal. */
  lemma {:induction false} TraversePrefixFailure<T, U, E>(xs: seq<T>, n: nat, f: T -> Result<U, E>)
    requires n <= |xs| && Traverse(xs[..n], f).Failure?
    ensures Traverse(xs, f) == Traverse(xs[..n], f)
    decreases |xs|
  {
    if n < |xs| {
      var init := xs[..|xs| - 1];
      assert init[..n] == xs[..n];
      TraversePrefixFailure(init, n, f);
    } else {
      assert xs[..n] == xs;
    }
  }

  /** What a loop that stops at its first failure leaves behind. */
  datatype Partial<+U, +E> = Partial(done: seq<U>, error: Option<E>)

  /**
   * Apply `f` to each element in order, keeping the results so far, until
   * the first failure.
   */
  function Attempt<T, U, E>(xs: seq<T>, f: T -> Result<U, E>): Partial<U, E>
    decreases |xs|
  {
    if |xs| == 0 then Partial([], None)
    else
      var before := Attempt(xs[..|xs| - 1], f);
      if before.error.Some? then before
      else
        match f(xs[|xs| - 1])
        case Failure(e) => Partial(before.done, Some(e))
        case Success(y) => Partial(before.done + [y], None)
  }

  /**
   * Without a failure, there is one result per element; with one, it is the
   * failure of the first failing element, and exactly the results of the
   * elements before it are kept.
   */
  lemma {:induction false} AttemptSpec<T, U, E>(xs: seq<T>, f: T -> Result<U, E>)
    ensures var p := Attempt(xs, f);
      && (p.error.None? <==> forall i | 0 <= i < |xs| :: f(xs[i]).Success?)
      && (p.error.None? ==>
            |p.done| == |xs| && forall i | 0 <= i < |xs| :: f(xs[i]) == Success(p.done[i]))
      && (p.error.Some? ==> exists k | 0 <= k < |xs| ::
            && f(xs[k]) == Failure(p.error.value)
            && |p.done| == k
            && forall i | 0 <= i < k :: f(xs[i]) == Success(p.done[i]))
    decreases |xs|
  {
    if |xs| > 0 {
      var n := |xs| - 1;
      AttemptSpec(xs[..n], f);
      assert forall i | 0 <= i < n :: xs[..n][i] == xs[i];
      var before := Attempt(xs[..n], f);
      if before.error.Some? {
        var k :| 0 <= k < n && f(xs[..n][k]) == Failure(before.error.value)
          && |before.done| == k
          && forall i | 0 <= i < k :: f(xs[..n][i]) == Success(before.done[i]);
        assert f(xs[k]) == Failure(before.error.value);
      } else if f(xs[n]).Failure? {
        assert f(xs[n]) == Failure(Attempt(xs, f).error.value);
      }
    }
  }

  /** One more element after a run without failure: its result is kept, or its failure recorded. */
  lemma AttemptNext<T, U, E>(xs: seq<T>, i: nat, f: T -> Result<U, E>, ys: seq<U>)
    requires i < |xs| && Attempt(xs[..i], f) == Partial(ys, None)
    ensures Attempt(xs[..i + 1], f) ==
      match f(xs[i])
      case Failure(e) => Partial(ys, Some(e))
      case Success(y) => Partial(ys + [y], None)
  {
    assert xs[..i + 1][..i] == xs[..i];
  }

  /** Once a failure has stopped the loop, later elements change nothing. */
  lemma {:induction false} AttemptStops<T, U, E>(xs: seq<T>, n: nat, f: T -> Result<U, E>)
    requires n <= |xs| && Attempt(xs[..n], f).error.Some?
    ensures Attempt(xs, f) == Attempt(xs[..n], f)
    decreases |xs|
  {
    if n < |xs| {
      var init := xs[..|xs| - 1];
      assert init[..n] == xs[..n];
      AttemptStops(init, n, f);
    } else {
      assert xs[..n] == xs;
    }
  }
}

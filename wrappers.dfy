/** Option and Result, the shapes used for Python's `None` and its exceptions. */
module Wrappers {

  datatype Option<+T> = None | Some(value: T) {
    /** The value, or `default` when absent (Python's `d.get(key, default)`). */
    function GetOr(default: T): T {
      match this
      case Some(v) => v
      case None => default
    }
  }

  datatype Result<+T, +E> = Success(value: T) | Failure(error: E)

  /** A step that either completes or raises. */
  datatype Outcome<+E> = Pass | Fail(error: E)

  /**
   * Running a sequence of steps that each produce a value or raise: the values in
   * order, or the error of the first step that raises.
   */
  function Collect<T, E>(rs: seq<Result<T, E>>): (r: Result<seq<T>, E>)
    ensures r.Success? ==> |r.value| == |rs|
  {
    if rs == [] then Success([])
    else
      var n := |rs| - 1;
      match Collect(rs[..n])
      case Failure(e) => Failure(e)
      case Success(vs) =>
        match rs[n]
        case Failure(e) => Failure(e)
        case Success(v) => Success(vs + [v])
  }

  /** The run succeeds exactly when every step does, and then yields every step's value. */
  lemma {:induction false} CollectValues<T, E>(rs: seq<Result<T, E>>)
    ensures Collect(rs).Success? <==> forall i :: 0 <= i < |rs| ==> rs[i].Success?
    ensures Collect(rs).Success? ==> forall i :: 0 <= i < |rs| ==> rs[i] == Success(Collect(rs).value[i])
  {
    if rs != [] {
      var n := |rs| - 1;
      CollectValues(rs[..n]);
      assert forall j :: 0 <= j < n ==> rs[..n][j] == rs[j];
    }
  }

  /** The value at position `i` of a successful run is the value of step `i`. */
  lemma {:induction false} CollectAt<T, E>(rs: seq<Result<T, E>>, vs: seq<T>, i: nat)
    requires Collect(rs) == Success(vs) && i < |rs|
    ensures |vs| == |rs| && rs[i] == Success(vs[i])
  {
    var n := |rs| - 1;
    var init := Collect(rs[..n]).value;
    if i < n {
      CollectAt(rs[..n], init, i);
      assert vs == init + [rs[n].value];
    }
  }

  /** A failed run reports the error of the first step that raises. */
  lemma {:induction false} CollectFirstError<T, E>(rs: seq<Result<T, E>>) returns (i: nat)
    requires Collect(rs).Failure?
    ensures i < |rs| && rs[i] == Failure(Collect(rs).error)
    ensures forall j :: 0 <= j < i ==> rs[j].Success?
  {
    var n := |rs| - 1;
    if Collect(rs[..n]).Failure? {
      i := CollectFirstError(rs[..n]);
      assert forall j :: 0 <= j < n ==> rs[..n][j] == rs[j];
    } else {
      CollectValues(rs[..n]);
      assert forall j :: 0 <= j < n ==> rs[..n][j] == rs[j];
      i := n;
    }
  }

  /** Once a prefix has run, a step that succeeds extends it. */
  lemma CollectSnoc<T, E>(rs: seq<Result<T, E>>, n: nat, vs: seq<T>)
    requires n < |rs| && Collect(rs[..n]) == Success(vs) && rs[n].Success?
    ensures Collect(rs[..n + 1]) == Success(vs + [rs[n].value])
  {
    assert rs[..n + 1][..n] == rs[..n];
  }

  /** Once a prefix has run, a step that raises decides the result. */
  lemma {:induction false} CollectStops<T, E>(rs: seq<Result<T, E>>, n: nat)
    requires n < |rs| && Collect(rs[..n]).Success? && rs[n].Failure?
    ensures Collect(rs) == Failure(rs[n].error)
  {
    if n == |rs| - 1 {
    } else {
      var m := |rs| - 1;
      assert rs[..m][..n] == rs[..n] && rs[..m][n] == rs[n];
      CollectStops(rs[..m], n);
    }
  }

  /** Running `rs` after steps that produced `acc`. */
  function CollectOnto<T, E>(acc: seq<T>, rs: seq<Result<T, E>>): (r: Result<seq<T>, E>)
    ensures r.Success? <==> Collect(rs).Success?
  {
    match Collect(rs)
    case Success(vs) => Success(acc + vs)
    case Failure(e) => Failure(e)
  }

  /** Running two sequences of steps one after the other is running their concatenation. */
  lemma {:induction false} CollectConcat<T, E>(a: seq<Result<T, E>>, b: seq<Result<T, E>>)
    ensures Collect(a + b) == match Collect(a) case Failure(e) => Failure(e) case Success(vs) => CollectOnto(vs, b)
  {
    if b == [] {
      assert a + b == a;
      if Collect(a).Success? {
        assert Collect(a).value + [] == Collect(a).value;
      }
    } else {
      var n := |b| - 1;
      assert (a + b)[..|a| + n] == a + b[..n];
      assert (a + b)[|a| + n] == b[n];
      CollectConcat(a, b[..n]);
      if Collect(a).Success? && Collect(b[..n]).Success? && b[n].Success? {
        var vs, ws := Collect(a).value, Collect(b[..n]).value;
        assert vs + (ws + [b[n].value]) == (vs + ws) + [b[n].value];
      }
    }
  }
}

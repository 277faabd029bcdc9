/** Option and Result types shared by every module of the model. */
module Wrappers {

  datatype Option<+T> = None | Some(value: T)

  /** The outcome of a piece of Python code: a value, or an exception nobody catches. */
  datatype Result<+T> = Ok(value: T) | Err(error: string)

  /** A loop that builds a list and stops at the first exception: the values of `rs` in
      order, or the first error among them. */
  function All<T>(rs: seq<Result<T>>): Result<seq<T>>
    decreases |rs|
  {
    if rs == [] then Ok([])
    else
      match All(rs[..|rs| - 1])
      case Err(e) => Err(e)
      case Ok(vs) =>
        match rs[|rs| - 1]
        case Err(e) => Err(e)
        case Ok(v) => Ok(vs + [v])
  }

  /** The list is built exactly when no element is an error, and then holds every value in
      order. */
  lemma {:induction false} AllSpec<T>(rs: seq<Result<T>>)
    ensures All(rs).Ok? <==> forall i :: 0 <= i < |rs| ==> rs[i].Ok?
    ensures All(rs).Ok? ==> |All(rs).value| == |rs|
    ensures All(rs).Ok? ==> forall i :: 0 <= i < |rs| ==> All(rs).value[i] == rs[i].value
    decreases |rs|
  {
    if rs != [] {
      var n := |rs| - 1;
      AllSpec(rs[..n]);
      assert forall i :: 0 <= i < n ==> rs[..n][i] == rs[i];
    }
  }

  /** Once an error occurs, what follows does not matter. */
  lemma {:induction false} AllErrSticky<T>(rs: seq<Result<T>>, i: nat)
    requires i <= |rs| && All(rs[..i]).Err?
    ensures All(rs) == All(rs[..i])
    decreases |rs| - i
  {
    if i < |rs| {
      assert rs[..i + 1][..i] == rs[..i];
      AllErrSticky(rs, i + 1);
    } else {
      assert rs[..i] == rs;
    }
  }

  /** One more element extends the list by its value, or ends it with its error. */
  lemma AllSnoc<T>(rs: seq<Result<T>>, i: nat)
    requires i < |rs|
    ensures All(rs[..i + 1]) == match All(rs[..i])
      case Err(e) => Err(e)
      case Ok(vs) => (match rs[i] case Err(e) => Err(e) case Ok(v) => Ok(vs + [v]))
  {
    assert rs[..i + 1][..i] == rs[..i];
  }
}

/** Shared value wrappers: Python's `Optional` and raised exceptions. */
module Base {

  /** `None` / a present value, as Python's `Optional[T]`. */
  datatype Option<+T> = None | Some(value: T)

  /** The Python exception classes the modelled code raises or catches. */
  datatype Error =
    | ValueError
    | TypeError
    | AttributeError
    | IndexError
    | FileNotFound
    | HttpError(status: nat)

  /** A computation that either returns a value or raises. */
  datatype Result<+T> = Ok(value: T) | Err(error: Error)

  /** Sum of a sequence of reals, taken from the left as Python's `sum`. */
  function Sum(xs: seq<real>): real
  {
    if xs == [] then 0.0 else Sum(xs[..|xs| - 1]) + xs[|xs| - 1]
  }

  /** Maximum of two reals. */
  function Max(a: real, b: real): real
  {
    if a >= b then a else b
  }

  /** Minimum of two reals. */
  function Min(a: real, b: real): real
  {
    if a <= b then a else b
  }

  /** A loop that converts each element in turn and lets the first
      exception escape. */
  function Traverse<T, U>(s: seq<T>, f: T -> Result<U>): Result<seq<U>>
  {
    if s == [] then Ok([])
    else
      match Traverse(s[..|s| - 1], f)
      case Err(e) => Err(e)
      case Ok(us) =>
        match f(s[|s| - 1])
        case Err(e) => Err(e)
        case Ok(u) => Ok(us + [u])
  }

  /** Every element converts and the results keep their order, or the error
      is that of the first element that fails. */
  lemma {:induction false} TraverseSpec<T, U>(s: seq<T>, f: T -> Result<U>) returns (k: nat)
    ensures Traverse(s, f).Ok? <==> forall i :: 0 <= i < |s| ==> f(s[i]).Ok?
    ensures Traverse(s, f).Ok? ==>
      |Traverse(s, f).value| == |s| && forall i :: 0 <= i < |s| ==> Traverse(s, f).value[i] == f(s[i]).value
    ensures Traverse(s, f).Err? ==>
      k < |s| && f(s[k]) == Err(Traverse(s, f).error) && forall i :: 0 <= i < k ==> f(s[i]).Ok?
  {
    k := 0;
    if s != [] {
      var init := s[..|s| - 1];
      k := TraverseSpec(init, f);
      assert forall i :: 0 <= i < |init| ==> s[i] == init[i];
      if Traverse(init, f).Ok? {
        k := |s| - 1;
      }
    }
  }

  /** Once a prefix fails, the whole sequence fails with the same error. */
  lemma {:induction false} TraverseErrExtends<T, U>(s: seq<T>, f: T -> Result<U>, n: nat)
    requires n <= |s| && Traverse(s[..n], f).Err?
    ensures Traverse(s, f) == Traverse(s[..n], f)
    decreases |s| - n
  {
    if n < |s| {
      assert s[..n + 1][..n] == s[..n];
      TraverseErrExtends(s, f, n + 1);
    } else {
      assert s[..n] == s;
    }
  }
}

/** Option and Result values, used for the failure outcomes of the scripts
    (a thrown error or `throwErrorAndExit`) instead of preconditions. */
module Wrappers {

  datatype Option<+T> = None | Some(value: T)

  datatype Result<+T, +E> = Success(value: T) | Failure(error: E) {

    predicate IsFailure() {
      Failure?
    }

    function PropagateFailure<U>(): Result<U, E>
      requires Failure?
    {
      Failure(error)
    }

    function Extract(): T
      requires Success?
    {
      value
    }
  }

  /** Applying `f` to every element in order, stopping at the first failure:
      a `map` or loop whose body may throw. */
  function MapResult<X, Y, E>(f: X -> Result<Y, E>, xs: seq<X>): (r: Result<seq<Y>, E>)
    ensures r.Success? ==> |r.value| == |xs|
    decreases |xs|
  {
    if xs == [] then Success([])
    else
      match MapResult(f, xs[..|xs| - 1])
      case Failure(e) => Failure(e)
      case Success(init) =>
        match f(xs[|xs| - 1])
        case Failure(e) => Failure(e)
        case Success(y) => Success(init + [y])
  }

  /** The map succeeds exactly when every call does, and then holds their
      results in order. */
  lemma {:induction false} MapResultSuccess<X, Y, E>(f: X -> Result<Y, E>, xs: seq<X>)
    ensures MapResult(f, xs).Success? <==> forall i :: 0 <= i < |xs| ==> f(xs[i]).Success?
    ensures MapResult(f, xs).Success? ==> forall i :: 0 <= i < |xs| ==> MapResult(f, xs).value[i] == f(xs[i]).value
    decreases |xs|
  {
    if xs != [] {
      var init := xs[..|xs| - 1];
      MapResultSuccess(f, init);
      assert forall i :: 0 <= i < |init| ==> init[i] == xs[i];
    }
  }

  /** The first failing call decides the error. */
  lemma {:induction false} MapResultFailure<X, Y, E>(f: X -> Result<Y, E>, xs: seq<X>, n: nat)
    requires n < |xs| && f(xs[n]).Failure?
    requires forall i :: 0 <= i < n ==> f(xs[i]).Success?
    ensures MapResult(f, xs) == Failure(f(xs[n]).error)
    decreases |xs|
  {
    var init := xs[..|xs| - 1];
    if n < |xs| - 1 {
      MapResultFailure(f, init, n);
    } else {
      MapResultSuccess(f, init);
      assert forall i :: 0 <= i < |init| ==> init[i] == xs[i];
    }
  }

  /** A run that succeeds up to position j and fails at j fails with that
      error. */
  lemma MapResultStop<X, Y, E>(f: X -> Result<Y, E>, xs: seq<X>, j: nat)
    requires j < |xs| && MapResult(f, xs[..j]).Success? && f(xs[j]).Failure?
    ensures MapResult(f, xs) == Failure(f(xs[j]).error)
  {
    MapResultSuccess(f, xs[..j]);
    assert forall i :: 0 <= i < j ==> xs[..j][i] == xs[i];
    MapResultFailure(f, xs, j);
  }

  /** One more element at the end of a successful run. */
  lemma MapResultSnoc<X, Y, E>(f: X -> Result<Y, E>, xs: seq<X>, j: nat)
    requires j < |xs| && MapResult(f, xs[..j]).Success? && f(xs[j]).Success?
    ensures MapResult(f, xs[..j + 1]) == Success(MapResult(f, xs[..j]).value + [f(xs[j]).value])
  {
    assert xs[..j + 1][..j] == xs[..j];
  }
}

/** The ways a run of the scripts can stop. Every one of them is fatal for the
    script that raises it: `throwErrorAndExit` ends the process, and an error
    thrown by a library call inside a `forEach` is never caught. */
module Errors {

  datatype Error =
    | MissingFile(path: string)             // readJSONFile(dst) without `ignore`
    | InvalidAddress(raw: string)           // getAddress: not 40 hex digits after an optional "0x"
    | BadAddressChecksum(raw: string)       // getAddress: mixed case that is not the checksum
    | InvalidDecimalValue(raw: string)      // parseUnits: not of the form -?[0-9.]+, or "."
    | TooManyDecimalPoints(raw: string)     // parseUnits: more than one "."
    | FractionExceedsDecimals(raw: string)  // parseUnits: more fractional digits than decimals
    | InvalidDecimalSize(decimals: int)     // parseUnits: decimals outside 0..256
    | ValueOutOfRange(value: int)           // solidity packing: value does not fit uint256
    | NotAList(field: string)               // spreading a field that is not an array
    | NotAnObject(field: string)            // Object.keys of a field that is not an object
    | NotAString(field: string)             // a field used as a key that is not a string
    | NonNumericTotal(path: string)         // a record whose `total` does not add as a number
    | MissingProofs                          // analytics/addresses.ts: no proof files
    | MissingSources                         // analytics/counts.ts: no source files
}

/** Failure-carrying values used across the model. */
module Wrappers {

  /** A value that may be absent: a null spreadsheet cell or a missing regex match. */
  datatype Option<+T> = None | Some(value: T)

  /** The outcome of an operation that Python would end with an exception. */
  datatype Result<+T, +E> = Ok(value: T) | Err(error: E)

  /**
   * Applying a step that may raise to each element in order until one
   * raises: all the values when every step succeeds, otherwise the error
   * of the first step that fails.
   */
  function CollectMap<A, T(==), E(==)>(xs: seq<A>, f: A -> Result<T, E>): (r: Result<seq<T>, E>)
    ensures r.Ok? <==> forall i :: 0 <= i < |xs| ==> f(xs[i]).Ok?
    ensures r.Ok? ==> |r.value| == |xs| && forall i :: 0 <= i < |xs| ==> f(xs[i]) == Ok(r.value[i])
    ensures r.Err? ==> (exists i :: 0 <= i < |xs| && f(xs[i]) == Err(r.error) && (forall j :: 0 <= j < i ==> f(xs[j]).Ok?))
  {
    if xs == [] then Ok([])
    else
      assert forall i :: 1 <= i < |xs| ==> xs[i] == xs[1..][i - 1];
      match f(xs[0])
      case Err(e) => Err(e)
      case Ok(v) =>
        match CollectMap(xs[1..], f)
        case Err(e) =>
          assert exists i :: 0 <= i < |xs| && f(xs[i]) == Err(e) && (forall j :: 0 <= j < i ==> f(xs[j]).Ok?) by {
            var i :| 0 <= i < |xs[1..]| && f(xs[1..][i]) == Err(e) && (forall j :: 0 <= j < i ==> f(xs[1..][j]).Ok?);
            assert f(xs[i + 1]) == Err(e) && forall j :: 0 <= j < i + 1 ==> f(xs[j]).Ok?;
          }
          Err(e)
        case Ok(vs) => Ok([v] + vs)
  }

  /**
   * Applying a step to each element in order and stopping at the first
   * one that fails: the values of the steps before it, and its error
   * (None when no step fails).
   */
  function CollectPrefix<A, T, E>(xs: seq<A>, f: A -> Result<T, E>): (r: (seq<T>, Option<E>))
    ensures |r.0| <= |xs|
    ensures forall i :: 0 <= i < |r.0| ==> f(xs[i]) == Ok(r.0[i])
    ensures r.1.None? <==> forall i :: 0 <= i < |xs| ==> f(xs[i]).Ok?
    ensures r.1.None? ==> |r.0| == |xs|
    ensures r.1.Some? ==> |r.0| < |xs| && f(xs[|r.0|]) == Err(r.1.value)
  {
    if xs == [] then ([], None)
    else
      match f(xs[0])
      case Err(e) => ([], Some(e))
      case Ok(v) =>
        var rest := CollectPrefix(xs[1..], f);
        assert forall i :: 1 <= i < |xs| ==> xs[i] == xs[1..][i - 1];
        ([v] + rest.0, rest.1)
  }

  /** One unfolding of CollectPrefix, for callers that see it through another function. */
  lemma CollectPrefixCons<A, T, E>(xs: seq<A>, f: A -> Result<T, E>)
    requires xs != []
    ensures CollectPrefix(xs, f) == match f(xs[0])
      case Err(e) => ([], Some(e))
      case Ok(v) => ([v] + CollectPrefix(xs[1..], f).0, CollectPrefix(xs[1..], f).1)
  {
  }

  /** A prefix of a prefix is a prefix. */
  lemma TakeTake<T>(s: seq<T>, i: nat, j: nat)
    requires j <= i <= |s|
    ensures s[..i][..j] == s[..j]
  {
  }

  /** Concatenation is associative; stated once so that proofs need not rediscover it. */
  lemma ConcatAssoc<T>(a: seq<T>, b: seq<T>, c: seq<T>)
    ensures a + b + c == a + (b + c)
  {
  }
}

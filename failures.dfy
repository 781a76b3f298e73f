/** The exceptions the classifier raises, and the result types that carry
    them in this model: a Python `raise` becomes a `Failure` / `Fail` value. */
module Failures {

  /** What the classifier can raise. */
  datatype Error =
    | ModelNotTrained               // ModelNotTrainedException, raised by score and savemodel
    | KeyError(key: string)         // a lookup of a missing key in a dict
    | IndexError(index: nat)        // a column outside a matrix, an index outside a vector
    | AttributeError(name: string)  // an attribute read before any method assigned it

  datatype Option<+T> = None | Some(value: T)

  datatype Result<+T> = Success(value: T) | Failure(error: Error)

  datatype Outcome = Pass | Fail(error: Error)

  /** The error that a loop over `s` raises when it stops at the first element
      that `check` rejects; `None` when every element passes. */
  function FirstError<T>(check: T -> Option<Error>, s: seq<T>): Option<Error>
    decreases |s|
  {
    if s == [] then None
    else match FirstError(check, s[..|s| - 1])
      case Some(e) => Some(e)
      case None => check(s[|s| - 1])
  }

  /** No error is raised exactly when every element passes the check. */
  lemma {:induction false} FirstErrorNoneIff<T>(check: T -> Option<Error>, s: seq<T>)
    ensures FirstError(check, s) == None <==> forall k :: 0 <= k < |s| ==> check(s[k]) == None
    decreases |s|
  {
    if s != [] {
      var init := s[..|s| - 1];
      FirstErrorNoneIff(check, init);
      assert forall k :: 0 <= k < |init| ==> init[k] == s[k];
    }
  }

  /** Once an error is raised, later elements do not change it. */
  lemma {:induction false} FirstErrorPersists<T>(check: T -> Option<Error>, s: seq<T>, t: seq<T>)
    requires FirstError(check, s).Some?
    ensures FirstError(check, s + t) == FirstError(check, s)
    decreases |t|
  {
    if t == [] {
      assert s + t == s;
    } else {
      var init := t[..|t| - 1];
      FirstErrorPersists(check, s, init);
      assert (s + t)[..|s + t| - 1] == s + init;
    }
  }

  /** The error raised is that of the first rejected element: if every element
      before position `k` passes and `s[k]` fails, the loop raises `s[k]`'s error. */
  lemma FirstErrorStops<T>(check: T -> Option<Error>, s: seq<T>, k: nat)
    requires k < |s| && FirstError(check, s[..k]) == None && check(s[k]).Some?
    ensures FirstError(check, s) == check(s[k])
  {
    assert s[..k + 1][..k] == s[..k];
    assert s == s[..k + 1] + s[k + 1..];
    FirstErrorPersists(check, s[..k + 1], s[k + 1..]);
  }

  /** Conversely, a raised error comes from some element all of whose
      predecessors pass. */
  lemma {:induction false} FirstErrorHasWitness<T>(check: T -> Option<Error>, s: seq<T>)
    requires FirstError(check, s).Some?
    ensures exists k :: 0 <= k < |s| && check(s[k]) == FirstError(check, s) &&
                        FirstError(check, s[..k]) == None
    decreases |s|
  {
    var init := s[..|s| - 1];
    if FirstError(check, init).Some? {
      FirstErrorHasWitness(check, init);
      var k :| 0 <= k < |init| && check(init[k]) == FirstError(check, init) &&
               FirstError(check, init[..k]) == None;
      assert init[..k] == s[..k];
      assert s[k] == init[k];
    } else {
      assert s[..|s| - 1] == init;
    }
  }

  /** A loop over `a + b` raises `a`'s error, or else `b`'s. */
  lemma {:induction false} FirstErrorConcat<T>(check: T -> Option<Error>, a: seq<T>, b: seq<T>)
    ensures FirstError(check, a + b) == if FirstError(check, a).Some? then FirstError(check, a) else FirstError(check, b)
    decreases |b|
  {
    if FirstError(check, a).Some? {
      FirstErrorPersists(check, a, b);
    } else if b == [] {
      assert a + b == a;
    } else {
      var init := b[..|b| - 1];
      FirstErrorConcat(check, a, init);
      assert (a + b)[..|a + b| - 1] == a + init;
    }
  }
}

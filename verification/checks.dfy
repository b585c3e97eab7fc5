/**
 The fail-fast precondition check of the `preconditions` decorator
 (pavlov.py, the loop in `take_args`).

 Each prerequisite is a parameter name with a predicate over that
 parameter's bound value. They are checked in list order; the first one
 whose name is unbound raises `KeyError`, the first one whose predicate is
 false raises `AssertionError` carrying its name, and nothing after it is
 looked at.
 */
module Checks {

  /** One `(name, predicate)` pair of the decorator's list. */
  datatype Prereq<!V> = Prereq(name: string, pred: V -> bool)

  /**
   The Python exceptions the decorated call can raise before reaching the
   wrapped function: a failed `assert` carrying the parameter name, a
   missing key in the binding, and the `TypeError` that `reversed(None)`
   raises in `arg_dict` (see the Introspection module; the check itself
   never raises it).
   */
  datatype Error = AssertionError(param: string) | KeyError(key: string) | TypeError

  /** Outcome of the whole check: all prerequisites hold, or the first error. */
  datatype Verdict = Passed | Raised(error: Error)

  /** The prerequisite's parameter is bound and its predicate holds of the value. */
  predicate Holds<V>(p: Prereq<V>, d: map<string, V>) {
    p.name in d && p.pred(d[p.name])
  }

  /** The error raised when `p` does not hold: the lookup fails first, then the assertion. */
  function ErrorOf<V>(p: Prereq<V>, d: map<string, V>): Error {
    if p.name in d then AssertionError(p.name) else KeyError(p.name)
  }

  /** Index `i` is the first prerequisite that does not hold. */
  predicate FirstViolation<V>(prereqs: seq<Prereq<V>>, d: map<string, V>, i: int) {
    && 0 <= i < |prereqs|
    && (forall j :: 0 <= j < i ==> Holds(prereqs[j], d))
    && !Holds(prereqs[i], d)
  }

  /**
   The check passes exactly when every prerequisite holds; otherwise it
   raises the error of the first one that does not.
   */
  function Check<V>(prereqs: seq<Prereq<V>>, d: map<string, V>): (v: Verdict)
    ensures v.Passed? <==> forall i :: 0 <= i < |prereqs| ==> Holds(prereqs[i], d)
    ensures v.Raised? ==> exists i :: FirstViolation(prereqs, d, i) && v.error == ErrorOf(prereqs[i], d)
  {
    if |prereqs| == 0 then Passed
    else if !Holds(prereqs[0], d) then Raised(ErrorOf(prereqs[0], d))
    else
      var tail := prereqs[1..];
      var v := Check(tail, d);
      assert forall i :: 0 <= i < |tail| ==> tail[i] == prereqs[i + 1];
      assert forall i {:trigger FirstViolation(tail, d, i)} ::
        FirstViolation(tail, d, i) ==> FirstViolation(prereqs, d, i + 1);
      v
  }

  /** There is at most one first violation. */
  lemma FirstViolationUnique<V>(prereqs: seq<Prereq<V>>, d: map<string, V>, i: int, j: int)
    requires FirstViolation(prereqs, d, i)
    requires FirstViolation(prereqs, d, j)
    ensures i == j
  {
  }

  /**
   The check is determined by its first violation: it raises exactly the
   error of that prerequisite, and a check that raises `e` has a first
   violation whose error is `e`.
   */
  lemma CheckReportsFirstViolation<V>(prereqs: seq<Prereq<V>>, d: map<string, V>, i: int)
    requires FirstViolation(prereqs, d, i)
    ensures Check(prereqs, d) == Raised(ErrorOf(prereqs[i], d))
  {
    var v := Check(prereqs, d);
    assert !Holds(prereqs[i], d);
    var i' :| FirstViolation(prereqs, d, i') && v.error == ErrorOf(prereqs[i'], d);
    FirstViolationUnique(prereqs, d, i, i');
  }

  /**
   Later prerequisites are never evaluated: once a prefix fails, anything
   appended after it (even prerequisites on unbound names) leaves the
   verdict unchanged.
   */
  lemma {:induction false} CheckStopsAtFirstFailure<V>(
    prereqs: seq<Prereq<V>>, rest: seq<Prereq<V>>, d: map<string, V>)
    requires Check(prereqs, d).Raised?
    ensures Check(prereqs + rest, d) == Check(prereqs, d)
  {
    assert |prereqs| > 0;
    assert (prereqs + rest)[0] == prereqs[0];
    if Holds(prereqs[0], d) {
      assert (prereqs + rest)[1..] == prereqs[1..] + rest;
      CheckStopsAtFirstFailure(prereqs[1..], rest, d);
    }
  }

  /** Checking a concatenation checks the first list, then the second. */
  lemma {:induction false} CheckAppend<V>(prereqs: seq<Prereq<V>>, rest: seq<Prereq<V>>, d: map<string, V>)
    ensures Check(prereqs + rest, d) ==
            if Check(prereqs, d).Passed? then Check(rest, d) else Check(prereqs, d)
  {
    if |prereqs| == 0 {
      assert prereqs + rest == rest;
    } else {
      assert (prereqs + rest)[0] == prereqs[0];
      if Holds(prereqs[0], d) {
        assert (prereqs + rest)[1..] == prereqs[1..] + rest;
        CheckAppend(prereqs[1..], rest, d);
      }
    }
  }

  /** A single prerequisite passes when it holds and raises its own error otherwise. */
  lemma CheckOne<V>(p: Prereq<V>, d: map<string, V>)
    ensures Check([p], d) == if Holds(p, d) then Passed else Raised(ErrorOf(p, d))
  {
    assert [p][1..] == [];
  }

  /**
   The loop of `take_args` written as a loop: walk the list in order and
   stop at the first prerequisite whose lookup or predicate fails.
   */
  method RunChecks<V>(prereqs: seq<Prereq<V>>, d: map<string, V>) returns (v: Verdict)
    ensures v.Passed? <==> forall i :: 0 <= i < |prereqs| ==> Holds(prereqs[i], d)
    ensures v.Raised? ==> exists i :: FirstViolation(prereqs, d, i) && v.error == ErrorOf(prereqs[i], d)
  {
    var i := 0;
    while i < |prereqs|
      invariant 0 <= i <= |prereqs|
      invariant forall j :: 0 <= j < i ==> Holds(prereqs[j], d)
    {
      var p := prereqs[i];
      if p.name !in d {
        assert FirstViolation(prereqs, d, i);
        return Raised(KeyError(p.name));
      }
      if !p.pred(d[p.name]) {
        assert FirstViolation(prereqs, d, i);
        return Raised(AssertionError(p.name));
      }
      i := i + 1;
    }
    return Passed;
  }
}

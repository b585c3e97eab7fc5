/**
 The `preconditions` decorator (pavlov.py, `preconditions`, `take_function`
 and `take_args`).

 Decorating a function with a list of prerequisites gives a wrapper that,
 on every call, builds the argument binding, runs the fail-fast check over
 it, and only when every prerequisite holds calls the original function
 with the original, unmodified arguments and returns its result.
 */
module Decorator {
  import opened Binding
  import opened Checks

  /** A function's parameter names in declaration order and its default values. */
  datatype Signature<+V> = Signature(names: seq<string>, defaults: seq<V>)

  /** What a call of the decorated function does: return a value or raise. */
  datatype Outcome<+R> = Returned(value: R) | Failed(error: Error)

  /** The binding `arg_dict` builds for a call with this signature. */
  function BindingOf<V>(sig: Signature<V>, args: seq<V>, kwds: map<string, V>): map<string, V> {
    ArgDict(sig.names, sig.defaults, args, kwds)
  }

  /**
   One call of the wrapper (`take_args`). The wrapped function `f` is given
   the positional and keyword arguments exactly as the caller passed them.
   */
  function TakeArgs<V, R>(sig: Signature<V>, prereqs: seq<Prereq<V>>,
                          f: (seq<V>, map<string, V>) -> R,
                          args: seq<V>, kwds: map<string, V>): (o: Outcome<R>)
    ensures o.Returned? <==>
              forall i :: 0 <= i < |prereqs| ==> Holds(prereqs[i], BindingOf(sig, args, kwds))
    ensures o.Returned? ==> o.value == f(args, kwds)
    ensures o.Failed? ==>
              exists i :: FirstViolation(prereqs, BindingOf(sig, args, kwds), i) &&
                          o.error == ErrorOf(prereqs[i], BindingOf(sig, args, kwds))
  {
    match Check(prereqs, BindingOf(sig, args, kwds))
    case Passed => Returned(f(args, kwds))
    case Raised(e) => Failed(e)
  }

  /**
   The decorator applied to `f` (`preconditions(prereqs)(f)`): a callable
   that either returns what `f` returns on the same arguments or raises
   the error of the first failing prerequisite.
   */
  function Decorate<V(!new), R>(prereqs: seq<Prereq<V>>, sig: Signature<V>,
                          f: (seq<V>, map<string, V>) -> R)
    : (wrapped: (seq<V>, map<string, V>) -> Outcome<R>)
    ensures forall args, kwds :: wrapped(args, kwds).Returned? ==>
              wrapped(args, kwds).value == f(args, kwds)
    ensures forall args, kwds :: wrapped(args, kwds).Failed? <==>
              Check(prereqs, BindingOf(sig, args, kwds)).Raised?
  {
    (args, kwds) => TakeArgs(sig, prereqs, f, args, kwds)
  }

  /**
   On failure the wrapped function is never invoked: the outcome of a
   failing call is the same whatever function is wrapped.
   */
  lemma FailureIgnoresFunction<V, R>(sig: Signature<V>, prereqs: seq<Prereq<V>>,
                                     f: (seq<V>, map<string, V>) -> R,
                                     g: (seq<V>, map<string, V>) -> R,
                                     args: seq<V>, kwds: map<string, V>)
    requires TakeArgs(sig, prereqs, f, args, kwds).Failed?
    ensures TakeArgs(sig, prereqs, g, args, kwds) == TakeArgs(sig, prereqs, f, args, kwds)
  {
  }

  /**
   The predicates see the bound (effective) values, not the raw arguments:
   two calls with the same binding get the same verdict.
   */
  lemma VerdictDependsOnlyOnBinding<V, R>(sig: Signature<V>, prereqs: seq<Prereq<V>>,
                                          f: (seq<V>, map<string, V>) -> R,
                                          args1: seq<V>, kwds1: map<string, V>,
                                          args2: seq<V>, kwds2: map<string, V>)
    requires BindingOf(sig, args1, kwds1) == BindingOf(sig, args2, kwds2)
    ensures TakeArgs(sig, prereqs, f, args1, kwds1).Returned? <==>
            TakeArgs(sig, prereqs, f, args2, kwds2).Returned?
    ensures TakeArgs(sig, prereqs, f, args1, kwds1).Failed? ==>
            TakeArgs(sig, prereqs, f, args1, kwds1) == TakeArgs(sig, prereqs, f, args2, kwds2)
  {
  }

  /**
   A prerequisite on a parameter that nothing binds (no keyword, no
   positional argument in its slot, no default) raises `KeyError` once
   every earlier prerequisite holds; it is never skipped.
   */
  lemma UnboundParameterRaisesKeyError<V, R>(sig: Signature<V>, prereqs: seq<Prereq<V>>,
                                             f: (seq<V>, map<string, V>) -> R,
                                             args: seq<V>, kwds: map<string, V>, i: int)
    requires Distinct(sig.names)
    requires 0 <= i < |prereqs|
    requires forall j :: 0 <= j < i ==> Holds(prereqs[j], BindingOf(sig, args, kwds))
    requires prereqs[i].name !in kwds
    requires prereqs[i].name in sig.names
    requires forall j :: 0 <= j < |sig.names| && sig.names[j] == prereqs[i].name ==>
               |args| <= j < |sig.names| - |sig.defaults|
    ensures TakeArgs(sig, prereqs, f, args, kwds) == Failed(KeyError(prereqs[i].name))
  {
    var j :| 0 <= j < |sig.names| && sig.names[j] == prereqs[i].name;
    ArgDictOfParameter(sig.names, sig.defaults, args, kwds, j);
    assert FirstViolation(prereqs, BindingOf(sig, args, kwds), i);
    CheckReportsFirstViolation(prereqs, BindingOf(sig, args, kwds), i);
  }
}

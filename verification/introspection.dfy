/**
 Where `arg_dict` gets the signature from (pavlov.py lines 4-5): the Python 2
 attributes `f.func_code.co_varnames` and `f.func_defaults`; and how
 `take_args` calls it (line 16).

 `co_varnames` lists the parameters first and then the function's local
 variables, and `func_defaults` is `None` for a function without defaults.
 Read as written, the first misaligns the defaults of any function that has
 local variables, and the second makes `reversed(None)` raise `TypeError`
 on every call of a decorated function that has no defaults. The corrected
 reading keeps only the first `co_argcount` names and treats `None` as no
 defaults; the rest of the model takes its signature in that form.

 A third quirk: `arg_dict(f, *args, **kwds)` has a parameter of its own
 named `f`, so a call passing a keyword argument named `f` raises
 `TypeError` ("multiple values for keyword argument") before any check.
 */
module Introspection {
  import opened Wrappers
  import opened Binding
  import opened Checks
  import opened Decorator

  /**
   What Python 2 records about a function: `co_varnames` (parameters, then
   locals), `co_argcount` (how many of those are parameters) and
   `func_defaults` (`None` when there are none).
   */
  datatype CodeInfo<+V> = CodeInfo(varnames: seq<string>, argcount: nat, defaults: Option<seq<V>>)

  /** What Python guarantees of a function's code: distinct names, defaults only on parameters. */
  predicate WellFormed<V>(code: CodeInfo<V>) {
    && code.argcount <= |code.varnames|
    && Distinct(code.varnames)
    && (code.defaults.Some? ==> |code.defaults.value| <= code.argcount)
  }

  /** The name of `arg_dict`'s own first parameter, which a keyword argument collides with. */
  const ArgDictOwnParam := "f"

  /**
   `take_args` as written: a keyword named `f` collides with `arg_dict`'s
   own parameter, the names are all of `co_varnames`, and
   `reversed(func_defaults)` raises `TypeError` when there are no defaults.
   */
  function TakeArgsAsWritten<V, R>(code: CodeInfo<V>, prereqs: seq<Prereq<V>>,
                                   f: (seq<V>, map<string, V>) -> R,
                                   args: seq<V>, kwds: map<string, V>): (o: Outcome<R>)
    ensures code.defaults.None? || ArgDictOwnParam in kwds ==> o == Failed(TypeError)
    ensures ArgDictOwnParam !in kwds && code.defaults.Some? ==>
              o == TakeArgs(Signature(code.varnames, code.defaults.value), prereqs, f, args, kwds)
    ensures o.Returned? ==> o.value == f(args, kwds)
  {
    if ArgDictOwnParam in kwds then Failed(TypeError)
    else match code.defaults
    case None => Failed(TypeError)
    case Some(defaults) => TakeArgs(Signature(code.varnames, defaults), prereqs, f, args, kwds)
  }

  /** The signature as intended: the parameter names only, and no defaults for `None`. */
  function ParamSignature<V>(code: CodeInfo<V>): (sig: Signature<V>)
    ensures |sig.names| == Min(code.argcount, |code.varnames|)
    ensures forall j :: 0 <= j < |sig.names| ==> sig.names[j] == code.varnames[j]
    ensures code.defaults.None? ==> sig.defaults == []
    ensures code.defaults.Some? ==> sig.defaults == code.defaults.value
  {
    Signature(code.varnames[..Min(code.argcount, |code.varnames|)], code.defaults.GetOr([]))
  }

  /** `take_args` with the intended signature: it never raises `TypeError`. */
  function TakeArgsCorrected<V, R>(code: CodeInfo<V>, prereqs: seq<Prereq<V>>,
                                   f: (seq<V>, map<string, V>) -> R,
                                   args: seq<V>, kwds: map<string, V>): (o: Outcome<R>)
    ensures o != Failed(TypeError)
    ensures o.Returned? <==>
              forall i :: 0 <= i < |prereqs| ==> Holds(prereqs[i], BindingOf(ParamSignature(code), args, kwds))
    ensures o.Returned? ==> o.value == f(args, kwds)
    ensures o.Failed? ==>
              exists i :: FirstViolation(prereqs, BindingOf(ParamSignature(code), args, kwds), i) &&
                          o.error == ErrorOf(prereqs[i], BindingOf(ParamSignature(code), args, kwds))
  {
    TakeArgs(ParamSignature(code), prereqs, f, args, kwds)
  }

  /**
   As written, a function with local variables gets its last default bound
   to its last local variable instead of its last parameter, and that
   parameter receives no default at all.
   */
  lemma AsWrittenDefaultLandsOnLocal<V>(code: CodeInfo<V>)
    requires WellFormed(code)
    requires code.argcount < |code.varnames|
    requires code.defaults.Some? && |code.defaults.value| > 0
    ensures var d := DefaultsMap(code.varnames, code.defaults.value);
      code.varnames[|code.varnames| - 1] in d &&
      d[code.varnames[|code.varnames| - 1]] == code.defaults.value[|code.defaults.value| - 1]
    ensures |code.defaults.value| <= |code.varnames| - code.argcount ==>
      forall j :: 0 <= j < code.argcount ==>
        code.varnames[j] !in DefaultsMap(code.varnames, code.defaults.value)
  {
    var names := code.varnames;
    var defaults := code.defaults.value;
    DefaultsRightAligned(names, defaults);
    if |defaults| <= |names| - code.argcount {
      forall j | 0 <= j < code.argcount ensures names[j] !in DefaultsMap(names, defaults) {
        OutsideWindow(names, |names| - |defaults|, |names|, j);
      }
    }
  }

  /** As written, `g(5)` for `def g(a, b=1): x = a` leaves `b` unbound: its default went to `x`. */
  lemma LocalsAsWrittenBinding()
    ensures "b" !in BindingOf(Signature(["a", "b", "x"], [1]), [5], map[])
  {
    ArgDictOfParameter(["a", "b", "x"], [1], [5], map[], 1);
  }

  /** With the intended signature, `g(5)` binds `b` to its default 1. */
  lemma LocalsCorrectedBinding()
    ensures var d := BindingOf(ParamSignature(CodeInfo(["a", "b", "x"], 2, Some([1]))), [5], map[]);
      "b" in d && d["b"] == 1
  {
    var sig := ParamSignature(CodeInfo(["a", "b", "x"], 2, Some([1])));
    assert sig.names == ["a", "b"];
    ArgDictOfParameter(sig.names, sig.defaults, [5], map[], 1);
  }

  /**
   Counterexample for locals: `def g(a, b=1): x = a` has `co_varnames`
   `(a, b, x)`. Called as `g(5)` with the prerequisite `b > 0`, the code as
   written raises `KeyError('b')`; the intended reading binds `b` to 1 and calls `g`.
   */
  lemma {:induction false} LocalsMisalignDefaults<R>(f: (seq<int>, map<string, int>) -> R)
    ensures var code := CodeInfo(["a", "b", "x"], 2, Some([1]));
            var prereqs := [Prereq("b", (v: int) => v > 0)];
      && TakeArgsAsWritten(code, prereqs, f, [5], map[]) == Failed(KeyError("b"))
      && TakeArgsCorrected(code, prereqs, f, [5], map[]) == Returned(f([5], map[]))
  {
    var code := CodeInfo(["a", "b", "x"], 2, Some([1]));
    var prereqs := [Prereq("b", (v: int) => v > 0)];
    assert TakeArgsAsWritten(code, prereqs, f, [5], map[]) == Failed(KeyError("b")) by {
      LocalsAsWrittenBinding();
      CheckOne(prereqs[0], BindingOf(Signature(code.varnames, [1]), [5], map[]));
    }
    assert TakeArgsCorrected(code, prereqs, f, [5], map[]) == Returned(f([5], map[])) by {
      LocalsCorrectedBinding();
      CheckOne(prereqs[0], BindingOf(ParamSignature(code), [5], map[]));
    }
  }

  /**
   Counterexample for missing defaults: `def g(a)` has `func_defaults`
   `None`. Called as `g(1)` with the prerequisite `a > 0`, which holds, the
   code as written raises `TypeError`; the intended reading calls `g`.
   */
  lemma {:induction false} NoDefaultsRaisesTypeError<R>(f: (seq<int>, map<string, int>) -> R)
    ensures var code := CodeInfo(["a"], 1, None);
            var prereqs := [Prereq("a", (v: int) => v > 0)];
      && TakeArgsAsWritten(code, prereqs, f, [1], map[]) == Failed(TypeError)
      && TakeArgsCorrected(code, prereqs, f, [1], map[]) == Returned(f([1], map[]))
  {
    var code := CodeInfo(["a"], 1, None);
    var sig := ParamSignature(code);
    assert sig.names == ["a"];
    ArgDictOfParameter(sig.names, sig.defaults, [1], map[], 0);
  }

  /**
   Counterexample for the keyword `f`: `def h(a, f=1)` called as
   `h(1, f=2)`, with no prerequisites at all, raises `TypeError` as written;
   the intended reading calls `h`.
   */
  lemma {:induction false} KeywordNamedFCollides<R>(g: (seq<int>, map<string, int>) -> R)
    ensures var code := CodeInfo(["a", "f"], 2, Some([1]));
      && TakeArgsAsWritten(code, [], g, [1], map["f" := 2]) == Failed(TypeError)
      && TakeArgsCorrected(code, [], g, [1], map["f" := 2]) == Returned(g([1], map["f" := 2]))
  {
  }

  /** Of distinct names, those outside the window `lo..hi` are not in the window. */
  lemma OutsideWindow(names: seq<string>, lo: int, hi: int, j: int)
    requires Distinct(names)
    requires 0 <= lo <= hi <= |names|
    requires 0 <= j < |names| && !(lo <= j < hi)
    ensures names[j] !in set p | lo <= p < hi :: names[p]
  {
  }

  /** The defaults layer of the binding under the intended signature. */
  function CorrectedDefaults<V>(code: CodeInfo<V>): map<string, V> {
    DefaultsMap(ParamSignature(code).names, ParamSignature(code).defaults)
  }

  /** The defaults layer under the intended signature is `arg_dict`'s line 6 on the parameter names alone. */
  lemma CorrectedDefaultsOfPrefix<V>(code: CodeInfo<V>)
    requires code.argcount <= |code.varnames|
    ensures CorrectedDefaults(code) == DefaultsMap(code.varnames[..code.argcount], code.defaults.GetOr([]))
  {
    assert Min(code.argcount, |code.varnames|) == code.argcount;
  }

  /** Under the intended signature the defaults layer binds exactly `varnames[argcount - |defaults|..argcount]`. */
  lemma CorrectedDefaultsKeys<V>(code: CodeInfo<V>)
    requires WellFormed(code)
    ensures CorrectedDefaults(code).Keys ==
            set p | code.argcount - |code.defaults.GetOr([])| <= p < code.argcount :: code.varnames[p]
  {
    var names := code.varnames[..code.argcount];
    var defaults := code.defaults.GetOr([]);
    CorrectedDefaultsOfPrefix(code);
    var lo := code.argcount - |defaults|;
    assert Min(|names|, |defaults|) == |defaults|;
    DefaultsKeys(names, defaults);
    assert (set p | lo <= p < code.argcount :: names[p]) ==
           (set p | lo <= p < code.argcount :: code.varnames[p]);
  }

  /** Distinct names stay distinct in a prefix. */
  lemma PrefixDistinct(names: seq<string>, n: int)
    requires Distinct(names)
    requires 0 <= n <= |names|
    ensures Distinct(names[..n])
  {
  }

  /** Under the intended signature the parameter `varnames[j]` in the defaults window takes its default. */
  lemma CorrectedDefaultOf<V>(code: CodeInfo<V>, j: int)
    requires WellFormed(code)
    requires code.argcount - |code.defaults.GetOr([])| <= j < code.argcount
    ensures code.varnames[j] in CorrectedDefaults(code)
    ensures CorrectedDefaults(code)[code.varnames[j]] ==
            code.defaults.GetOr([])[j - (code.argcount - |code.defaults.GetOr([])|)]
  {
    var names := code.varnames[..code.argcount];
    var defaults := code.defaults.GetOr([]);
    assert |names| == code.argcount;
    assert names[j] == code.varnames[j];
    assert Distinct(names) by {
      PrefixDistinct(code.varnames, code.argcount);
    }
    CorrectedDefaultsOfPrefix(code);
    DefaultOfParameter(names, defaults, j);
  }

  /** Under the intended signature `varnames[j]` takes the default at its offset from the right. */
  lemma CorrectedDefaultsValues<V>(code: CodeInfo<V>)
    requires WellFormed(code)
    ensures forall j :: code.argcount - |code.defaults.GetOr([])| <= j < code.argcount ==>
        code.varnames[j] in CorrectedDefaults(code) &&
        CorrectedDefaults(code)[code.varnames[j]] ==
        code.defaults.GetOr([])[j - (code.argcount - |code.defaults.GetOr([])|)]
  {
    forall j | code.argcount - |code.defaults.GetOr([])| <= j < code.argcount
      ensures code.varnames[j] in CorrectedDefaults(code)
      ensures CorrectedDefaults(code)[code.varnames[j]] ==
              code.defaults.GetOr([])[j - (code.argcount - |code.defaults.GetOr([])|)]
    {
      CorrectedDefaultOf(code, j);
    }
  }

  /**
   With the intended signature, defaults land on the trailing parameters
   (the `i`-th default from the end on the `i`-th parameter from the end)
   and no leading parameter and no local variable ever receives one.
   */
  lemma CorrectedDefaultsOnParameters<V>(code: CodeInfo<V>)
    requires WellFormed(code)
    ensures var lo := code.argcount - |code.defaults.GetOr([])|;
      forall j :: 0 <= j < |code.varnames| ==>
        (code.varnames[j] in CorrectedDefaults(code) <==> lo <= j < code.argcount)
    ensures var lo := code.argcount - |code.defaults.GetOr([])|;
      forall j :: lo <= j < code.argcount ==>
        code.varnames[j] in CorrectedDefaults(code) &&
        CorrectedDefaults(code)[code.varnames[j]] == code.defaults.GetOr([])[j - lo]
  {
    var lo := code.argcount - |code.defaults.GetOr([])|;
    CorrectedDefaultsKeys(code);
    CorrectedDefaultsValues(code);
    forall j | 0 <= j < |code.varnames|
      ensures code.varnames[j] in CorrectedDefaults(code) <==> lo <= j < code.argcount
    {
      if !(lo <= j < code.argcount) {
        OutsideWindow(code.varnames, lo, code.argcount, j);
      }
    }
  }
}

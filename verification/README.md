# pavlov: a verified model of the `preconditions` decorator

pavlov is a tiny Python 2 runtime contract checker. The file `pavlov.py` holds two
pieces of logic, and this project models both in Dafny:

* `arg_dict` builds the argument binding of one call. Default values are paired
  with the trailing parameter names, aligned from the right. Positional arguments
  are laid over them in declaration order. Keyword arguments are laid over last.
  The result maps each name to a value.
* `preconditions(prereqs)` wraps a function. On every call the wrapper
  (`take_args`) builds that binding. It then checks each `(name, predicate)` pair
  in list order. A name missing from the binding raises `KeyError`. A false
  predicate fails the `assert`, which raises `AssertionError` carrying the name.
  If every check passes, the original function is called with the original
  arguments and its result is returned.

Modules:

* `Binding` (`binding.dfy`): Python's `reversed`, `zip` and dict construction.
  Also `ArgDict` and its characterisation: right-aligned defaults, positional
  arguments bound by slot, keyword over positional over default, and the exact
  key set.
* `Checks` (`checks.dfy`): the fail-fast check. It appears both as a recursive
  function and as the loop of `take_args`, and both are specified by the first
  violated prerequisite.
* `Decorator` (`decorator.dfy`): `take_args` and the decorated callable. The
  success path is transparent, failure never reaches the wrapped function, and
  the verdict depends only on the binding.
* `Example` (`example.dfy`): the decorated `f(a, b=2, c=4)` of the source and
  concrete calls of it.
* `Introspection` (`introspection.dfy`): how `arg_dict` reads the signature off a
  Python 2 function object. It gives both the code as written and the evidently
  intended reading (see Findings).
* `Wrappers` (`wrappers.dfy`): an `Option` type for Python's `None`.

Values are a type parameter `V`. The example uses `int`. Parameter and keyword
names are strings. Predicates are total Dafny functions `V -> bool`. The wrapped
function is a total function of the original positional and keyword arguments.
Python guarantees that a function's parameter names are distinct. The lemmas that
speak about values take this as `Distinct(names)`. The functions themselves
accept any sequence of names, and on repeats they behave as the dict operations
do: the later pair wins.

## Model

| member | source | states |
|---|---|---|
| `Binding.Reverse` | pavlov.py:6 | Python's `reversed`: the result has the input's length, and its `i`-th element is the `i`-th from the end of the input. |
| `Binding.Zip` | pavlov.py:6-7 | Python's `zip`: it stops at the shorter input, and its `i`-th pair is the two `i`-th elements. |
| `Binding.DictOf` | pavlov.py:6-7 | A dict built from pairs in order has exactly the pairs' keys. Each key maps to the value of its last pair, because later pairs overwrite earlier ones. |
| `Binding.ArgDict` | pavlov.py:8-9 | Keywords override positional arguments, which override defaults. Every keyword ends up in the binding with its own value. A name with neither a keyword nor a positional argument is bound exactly when it has a default, and then to that default. |
| `Binding.DefaultsKeys` | pavlov.py:6 | Zipping the reversed names with the reversed defaults gives a default to exactly the last `min(|names|, |defaults|)` names. The leading names get none. |
| `Binding.DefaultOfParameter` | pavlov.py:6 | A trailing parameter `names[j]` is bound to `defaults[j - (|names| - |defaults|)]`. |
| `Binding.DefaultsRightAligned` | pavlov.py:6 | Defaults are right-aligned. The keys are the last `min(|names|, |defaults|)` names, and the i-th name from the end takes the i-th default from the end. |
| `Binding.PositionalByPosition` | pavlov.py:7 | `names[i]` is bound to `args[i]` for every `i < min(|names|, |args|)`. The keys are exactly those names, so surplus positional arguments are dropped. |
| `Binding.ArgDictOfParameter` | pavlov.py:6-9 | This is the complete binding of a declared parameter `names[j]`. It is the keyword if one is given. Otherwise it is `args[j]` if `j < |args|`. Otherwise it is its default if `j` is among the last `|defaults|` positions. Otherwise the name is absent. |
| `Binding.ArgDictKeys` | pavlov.py:6-9 | The binding's key set is exactly the names that get a default, plus the first `min(|names|, |args|)` names, plus every keyword. |
| `Binding.ArgDictKeysDeclared` | pavlov.py:6-9 | Every key of the binding is a declared parameter or a keyword argument. |
| `Binding.AllKeywordCall` | pavlov.py:9 | A call that names every parameter by keyword binds exactly its keywords, whatever the defaults are. |
| `Binding.UndeclaredKeywordBound` | pavlov.py:9 | A keyword that is not a declared parameter is still in the binding with its value, because `d.update(kwds)` does not filter. |
| `Checks.Check` | pavlov.py:17-18 | The check passes exactly when every prerequisite's name is bound and its predicate holds. Otherwise it raises the error of the first prerequisite that fails: `KeyError` if the name is unbound, else `AssertionError` with the name. |
| `Checks.CheckReportsFirstViolation` | pavlov.py:17-18 | The first failing prerequisite alone determines the verdict. |
| `Checks.CheckStopsAtFirstFailure` | pavlov.py:17-18 | Prerequisites after the first failure are never evaluated. Appending anything to a failing list, even prerequisites on unbound names, leaves the verdict unchanged. |
| `Checks.CheckAppend` | pavlov.py:17-18 | Checking a concatenation checks the first list and, only if it passes, the second. |
| `Checks.RunChecks` | pavlov.py:17-18 | This is the `for` loop with early exit. It passes exactly when every prerequisite holds, and otherwise raises the error of the first violation. |
| `Decorator.TakeArgs` | pavlov.py:15-19 | The call returns exactly when every prerequisite holds on the binding, and then it returns `f(args, kwds)` with the original arguments. Otherwise it raises the error of the first violated prerequisite. |
| `Decorator.Decorate` | pavlov.py:12-21 | The decorated callable either returns what the wrapped function returns on the same arguments, or raises exactly when the check over the binding fails. |
| `Decorator.FailureIgnoresFunction` | pavlov.py:17-19 | On failure the wrapped function is not invoked: the outcome is the same whatever function is wrapped. |
| `Decorator.VerdictDependsOnlyOnBinding` | pavlov.py:16-18 | The predicates see bound values, not raw arguments. Two calls with the same binding pass or fail alike, with the same error. |
| `Decorator.UnboundParameterRaisesKeyError` | pavlov.py:18 | Take a prerequisite on a parameter that has no keyword, no positional argument and no default, and whose earlier prerequisites hold. It raises `KeyError` and is not skipped. |
| `Example.BindingOfPositionalCall` | pavlov.py:24 | For `f(a, b=2, c=4)`, a positional call binds each argument in its slot. `b` and `c` fall back to 2 and 4, and `a` is unbound when no argument is given. |
| `Example.ExampleCheck` | pavlov.py:17-18 | On any binding, the prerequisites `a > 10` and `b < 0` are checked in that order. A missing `a` raises `KeyError('a')`, then `a <= 10` raises `AssertionError('a')`, then the same two for `b`. Otherwise the check passes. |
| `Example.ExampleCallReturnsSum` | pavlov.py:23-25 | A positional call `f(a, b, c)` with `a > 10` and `b < 0` returns `a + b + c`. |
| `Example.ExampleCallReturns12` | pavlov.py:23-28 | `f(11, -2, 3)` passes `a > 10` and `b < 0` and returns 12. |
| `Example.ExampleFailsOnA` | pavlov.py:23-25 | `f(a)` with `a <= 10` raises `AssertionError('a')`. |
| `Example.ExampleFailsOnDefaultB` | pavlov.py:23-25 | `f(a)` with `a > 10` passes on `a` and raises `AssertionError('b')`, because the predicate sees the default 2. |
| `Example.ExampleMissingARaisesKeyError` | pavlov.py:18 | `f(b=v)` binds no `a`, so the first lookup raises `KeyError('a')` whatever `v` is. |
| `Example.ExampleKeywordOverridesDefault` | pavlov.py:6-9 | `f(x, y, c=z)` binds exactly `a=x, b=y, c=z`. The keyword replaces the default 4. |
| `Example.ExampleAllKeywords` | pavlov.py:9 | `f(c=z, a=x, b=y)` binds exactly `a=x, b=y, c=z`, whatever the keyword order. |
| `Introspection.TakeArgsAsWritten` | pavlov.py:3-6 | As written, a call that passes a keyword argument named `f` raises `TypeError`, and so does every call of a function whose `func_defaults` is `None`. Otherwise the call behaves as `take_args` with all of `co_varnames` as the parameter names, and when it returns it returns `f(args, kwds)`. |
| `Introspection.AsWrittenDefaultLandsOnLocal` | pavlov.py:4-6 | As written, a function with local variables gets its last default bound to its last local variable. When the locals are at least as many as the defaults, no parameter gets a default at all. |
| `Introspection.LocalsMisalignDefaults` | pavlov.py:4-6 | Take `def g(a, b=1): x = a` with the prerequisite `b > 0`. As written, `g(5)` raises `KeyError('b')`. With the intended signature it calls `g`. |
| `Introspection.NoDefaultsRaisesTypeError` | pavlov.py:5-6 | Take `def g(a)` with the prerequisite `a > 0`. As written, `g(1)` raises `TypeError`. With the intended signature it calls `g`. |
| `Introspection.KeywordNamedFCollides` | pavlov.py:16 | `arg_dict` (line 3) has its own first parameter `f`. Take `def h(a, f=1)` with no prerequisites. As written, `h(1, f=2)` raises `TypeError`. With the intended signature it calls `h`. |
| `Introspection.ParamSignature` | pavlov.py:4-5 | The intended signature takes the first `co_argcount` names of `co_varnames`. It keeps `func_defaults` when it is a tuple and reads `None` as no defaults. |
| `Introspection.TakeArgsCorrected` | pavlov.py:4-6 | With the intended signature, the wrapper never raises `TypeError`, whatever the keywords are named. It returns `f(args, kwds)` exactly when every prerequisite holds on the binding over the parameter names. Otherwise it raises the error of the first violated prerequisite. |
| `Introspection.CorrectedDefaultsKeys` | pavlov.py:4-6 | With the intended signature, the defaults layer binds exactly the last `|defaults|` parameters. |
| `Introspection.CorrectedDefaultOf` | pavlov.py:4-6 | With the intended signature, a parameter `varnames[j]` among the last `|defaults|` parameters takes `defaults[j - (argcount - |defaults|)]`. |
| `Introspection.CorrectedDefaultsValues` | pavlov.py:4-6 | With the intended signature, each of those parameters takes the default at its offset from the right. |
| `Introspection.CorrectedDefaultsOnParameters` | pavlov.py:4-6 | With the intended signature, a name of `co_varnames` gets a default exactly when it is one of the last `|defaults|` parameters, and it gets the right one. No leading parameter and no local variable ever gets a default. |

## Findings

| source | as written | input that shows it | evidently intended | confidence | as-written member | corrected member |
|---|---|---|---|---|---|---|
| pavlov.py:4-6 | The parameter names are all of `co_varnames`, which also lists the function's local variables, so the reversed defaults are zipped onto the locals first. | `def g(a, b=1): x = a` decorated with `[('b', lambda v: v > 0)]`, called as `g(5)`: the binding is `{x: 1, a: 5}` and the lookup of `b` raises `KeyError`. | Only the first `co_argcount` names are parameters, and defaults align to them. | not executed; high (Python 2 documents `co_varnames` as arguments followed by locals) | `Introspection.LocalsMisalignDefaults` | `Introspection.CorrectedDefaultsOnParameters` |
| pavlov.py:16 | `take_args` calls `arg_dict(f, *args, **kwds)`, and `arg_dict` has a parameter of its own named `f`. | `def h(a, f=1)` decorated with `[]`, called as `h(1, f=2)`: Python raises `TypeError` for multiple values of the argument `f` before any check runs. | The caller's keywords reach the binding whatever their names. | not executed; high | `Introspection.KeywordNamedFCollides` | `Introspection.TakeArgsCorrected` |
| pavlov.py:5-6 | `reversed(f.func_defaults)`, where `func_defaults` is `None` for a function without defaults. | `def g(a)` decorated with `[('a', lambda v: v > 0)]`, called as `g(1)`: `reversed(None)` raises `TypeError` before any check runs. | A function without defaults has an empty tuple of defaults. | not executed; high | `Introspection.NoDefaultsRaisesTypeError` | `Introspection.TakeArgsCorrected` |

The rest of the model (`Decorator`, `Example`) takes the signature as explicit
parameter names and defaults, which is the corrected reading.

## Left out

- Python introspection itself (`func_code`, `co_varnames`, `func_defaults`) is reduced to the `CodeInfo` record. The names of `*args` and `**kwargs` parameters, which Python also lists in `co_varnames`, are not modelled.
- `functools.wraps` (pavlov.py:14) only copies metadata such as the name and docstring. Nothing about it can be verified.
- `assert` statements are removed under `python -O`. That is interpreter configuration, so the check is modelled as always active.
- The `print` in the `__main__` block (pavlov.py:27-28) is I/O. The value it would print is `Example.ExampleCallReturns12`.
- Predicates are total functions to `bool`. A predicate that raises, or that returns a truthy value that is not a boolean, is not modelled.
- The wrapped function's own call-time errors are not modelled. Python raises `TypeError` for surplus positional arguments, unknown keywords, or a parameter given twice, and the model treats `f` as a total function of the original arguments. The example's `F` returns `None` only when a parameter is left unbound.
- `Decorate`: states transparency and when the decorated callable fails. The exact error is stated on `TakeArgs`, because a contract quantified over all calls of a closure is costly to verify.
- Prerequisites are taken as a fixed sequence value. `preconditions` keeps a reference to the caller's list and iterates it again on every call, so a list changed after decoration changes the checks of later calls, and a one-shot iterator is used up by the first call, so later calls check nothing. Neither aliasing nor one-shot iterators are modelled.
- Type constraints, a `TypeCheckError` and post-call checks do not exist in this file. `pavlov.py` only checks preconditions, and a failed one raises a plain `AssertionError` with the parameter name as its message.

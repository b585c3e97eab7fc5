/**
 The decorated example function of pavlov.py: `f(a, b=2, c=4)` returns
 `a + b + c`, guarded by the prerequisites `a > 10` and `b < 0`.
 */
module Example {
  import opened Wrappers
  import opened Binding
  import opened Checks
  import opened Decorator

  /** The example's signature: parameters `a, b, c`, defaults `2, 4`. */
  function Sig(): (sig: Signature<int>)
    ensures Distinct(sig.names)
  {
    Signature(["a", "b", "c"], [2, 4])
  }

  /** The example's prerequisites, in order. */
  function Prereqs(): seq<Prereq<int>> {
    [Prereq("a", x => x > 10), Prereq("b", x => x < 0)]
  }

  /** The body of `f`, `a + b + c`, over the bound parameters; `None` if one is unbound. */
  function Body(d: map<string, int>): Option<int> {
    if "a" in d && "b" in d && "c" in d then Some(d["a"] + d["b"] + d["c"]) else None
  }

  /**
   `f` called with the arguments it is given. Python binds them as
   `arg_dict` does for a well-formed call; a call that leaves a parameter
   unbound is a `TypeError` in Python and gives `None` here.
   */
  function F(args: seq<int>, kwds: map<string, int>): Option<int> {
    Body(BindingOf(Sig(), args, kwds))
  }

  /** With all three parameters bound, `f` returns their sum. */
  lemma BodyOfBound(d: map<string, int>, a: int, b: int, c: int)
    requires "a" in d && "b" in d && "c" in d
    requires d["a"] == a && d["b"] == b && d["c"] == c
    ensures Body(d) == Some(a + b + c)
  {
  }

  /**
   The example's check on any binding: `KeyError('a')` without `a`, then
   `AssertionError('a')` unless `a > 10`, then the same two for `b` and `b < 0`.
   */
  lemma ExampleCheck(d: map<string, int>)
    ensures Check(Prereqs(), d) ==
      if "a" !in d then Raised(KeyError("a"))
      else if d["a"] <= 10 then Raised(AssertionError("a"))
      else if "b" !in d then Raised(KeyError("b"))
      else if d["b"] >= 0 then Raised(AssertionError("b"))
      else Passed
  {
    assert Prereqs()[1..] == [Prereq("b", (x: int) => x < 0)];
  }

  /** The binding of a positional-only call: each argument in its slot, defaults after. */
  lemma {:induction false} BindingOfPositionalCall(args: seq<int>)
    requires |args| <= 3
    ensures var d := BindingOf(Sig(), args, map[]);
      && (|args| >= 1 ==> "a" in d && d["a"] == args[0])
      && (|args| == 0 ==> "a" !in d)
      && "b" in d && d["b"] == (if |args| >= 2 then args[1] else 2)
      && "c" in d && d["c"] == (if |args| >= 3 then args[2] else 4)
  {
    var names := Sig().names;
    ArgDictOfParameter(names, Sig().defaults, args, map[], 0);
    ArgDictOfParameter(names, Sig().defaults, args, map[], 1);
    ArgDictOfParameter(names, Sig().defaults, args, map[], 2);
  }

  /**
   A full positional call `f(a, b, c)` with `a > 10` and `b < 0` passes both
   checks and returns `a + b + c`.
   */
  lemma {:induction false} ExampleCallReturnsSum(a: int, b: int, c: int)
    requires a > 10 && b < 0
    ensures TakeArgs(Sig(), Prereqs(), F, [a, b, c], map[]) == Returned(Some(a + b + c))
  {
    var d := BindingOf(Sig(), [a, b, c], map[]);
    BindingOfPositionalCall([a, b, c]);
    ExampleCheck(d);
    BodyOfBound(d, a, b, c);
  }

  /** The call `f(11, -2, 3)` of the source returns 12. */
  lemma {:induction false} ExampleCallReturns12()
    ensures TakeArgs(Sig(), Prereqs(), F, [11, -2, 3], map[]) == Returned(Some(12))
  {
    ExampleCallReturnsSum(11, -2, 3);
  }

  /** A call `f(a)` with `a <= 10` fails the first prerequisite, on `a`. */
  lemma {:induction false} ExampleFailsOnA(a: int)
    requires a <= 10
    ensures TakeArgs(Sig(), Prereqs(), F, [a], map[]) == Failed(AssertionError("a"))
  {
    BindingOfPositionalCall([a]);
    ExampleCheck(BindingOf(Sig(), [a], map[]));
  }

  /** A call `f(a)` with `a > 10` passes on `a` and fails on `b`, whose default 2 is not negative. */
  lemma {:induction false} ExampleFailsOnDefaultB(a: int)
    requires a > 10
    ensures TakeArgs(Sig(), Prereqs(), F, [a], map[]) == Failed(AssertionError("b"))
  {
    BindingOfPositionalCall([a]);
    ExampleCheck(BindingOf(Sig(), [a], map[]));
  }

  /** A call `f(b=v)` binds no `a`, so the lookup for the first prerequisite fails. */
  lemma {:induction false} ExampleMissingARaisesKeyError(v: int)
    ensures TakeArgs(Sig(), Prereqs(), F, [], map["b" := v]) == Failed(KeyError("a"))
  {
    ArgDictOfParameter(Sig().names, Sig().defaults, [], map["b" := v], 0);
    ExampleCheck(BindingOf(Sig(), [], map["b" := v]));
  }

  /** A binding of exactly `a`, `b`, `c` is the map of those three values. */
  lemma ThreeBindings(d: map<string, int>, x: int, y: int, z: int)
    requires forall k :: k in d ==> k == "a" || k == "b" || k == "c"
    requires "a" in d && "b" in d && "c" in d
    requires d["a"] == x && d["b"] == y && d["c"] == z
    ensures d == map["a" := x, "b" := y, "c" := z]
  {
  }

  /** Every name bound by `f(x, y, c=z)` is a parameter of `f`. */
  lemma KeywordCallKeys(x: int, y: int, z: int)
    ensures forall k :: k in BindingOf(Sig(), [x, y], map["c" := z]) ==> k == "a" || k == "b" || k == "c"
  {
    ArgDictKeysDeclared(Sig().names, Sig().defaults, [x, y], map["c" := z]);
  }

  /** `f(x, y, c=z)` binds `a` and `b` by position and `c` by keyword. */
  lemma KeywordCallValues(x: int, y: int, z: int)
    ensures var d := BindingOf(Sig(), [x, y], map["c" := z]);
      "a" in d && "b" in d && "c" in d && d["a"] == x && d["b"] == y && d["c"] == z
  {
    var kw := map["c" := z];
    ArgDictOfParameter(Sig().names, Sig().defaults, [x, y], kw, 0);
    ArgDictOfParameter(Sig().names, Sig().defaults, [x, y], kw, 1);
    ArgDictOfParameter(Sig().names, Sig().defaults, [x, y], kw, 2);
  }

  /** Keyword over default: `f(x, y, c=z)` binds `a`, `b` by position and `c` to `z`, not to 4. */
  lemma {:induction false} ExampleKeywordOverridesDefault(x: int, y: int, z: int)
    ensures BindingOf(Sig(), [x, y], map["c" := z]) == map["a" := x, "b" := y, "c" := z]
  {
    KeywordCallKeys(x, y, z);
    KeywordCallValues(x, y, z);
    ThreeBindings(BindingOf(Sig(), [x, y], map["c" := z]), x, y, z);
  }

  /** An all-keyword call of `f` binds exactly its keywords. */
  lemma AllKeywordBinding(x: int, y: int, z: int)
    ensures BindingOf(Sig(), [], map["c" := z, "a" := x, "b" := y]) == map["c" := z, "a" := x, "b" := y]
  {
    AllKeywordCall(Sig().names, Sig().defaults, map["c" := z, "a" := x, "b" := y]);
  }

  /** An all-keyword call `f(c=z, a=x, b=y)` binds every parameter by name. */
  lemma {:induction false} ExampleAllKeywords(x: int, y: int, z: int)
    ensures BindingOf(Sig(), [], map["c" := z, "a" := x, "b" := y]) ==
            map["a" := x, "b" := y, "c" := z]
  {
    AllKeywordBinding(x, y, z);
    ThreeBindings(map["c" := z, "a" := x, "b" := y], x, y, z);
  }
}

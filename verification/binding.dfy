/**
 Argument binding for one call of a decorated function (pavlov.py, `arg_dict`).

 The binding is built in three layers, each overriding the previous one:
 the default values paired with the trailing parameter names (aligned from
 the right), the positional arguments paired with the parameter names in
 declaration order, and finally the keyword arguments as given.
 */
module Binding {

  function Min(a: int, b: int): int {
    if a <= b then a else b
  }

  function Max(a: int, b: int): int {
    if a <= b then b else a
  }

  /** No name occurs twice; Python guarantees this of a function's parameter names. */
  predicate Distinct(names: seq<string>) {
    forall i, j :: 0 <= i < j < |names| ==> names[i] != names[j]
  }

  /** Python's `reversed`. */
  function Reverse<T>(s: seq<T>): (r: seq<T>)
    ensures |r| == |s|
    ensures forall i :: 0 <= i < |s| ==> r[i] == s[|s| - 1 - i]
  {
    if |s| == 0 then [] else Reverse(s[1..]) + [s[0]]
  }

  /** Python's `zip` of two sequences: it stops at the shorter one. */
  function Zip<A, B>(xs: seq<A>, ys: seq<B>): (r: seq<(A, B)>)
    ensures |r| == Min(|xs|, |ys|)
    ensures forall i :: 0 <= i < |r| ==> r[i] == (xs[i], ys[i])
  {
    seq(Min(|xs|, |ys|), i requires 0 <= i < Min(|xs|, |ys|) => (xs[i], ys[i]))
  }

  /** Pair `i` is the last one in `pairs` whose key is `pairs[i].0`. */
  predicate LastOfItsKey<V>(pairs: seq<(string, V)>, i: int)
    requires 0 <= i < |pairs|
  {
    forall j :: i < j < |pairs| ==> pairs[j].0 != pairs[i].0
  }

  /**
   A dictionary built from key/value pairs in order, as a dict comprehension
   or `dict.update` does: every key of a pair is present, and a key repeated
   later overwrites the value stored by an earlier pair.
   */
  function DictOf<V>(pairs: seq<(string, V)>): (d: map<string, V>)
    ensures d.Keys == set i | 0 <= i < |pairs| :: pairs[i].0
    ensures forall i :: 0 <= i < |pairs| && LastOfItsKey(pairs, i) ==> d[pairs[i].0] == pairs[i].1
  {
    if |pairs| == 0 then map[]
    else
      var init := pairs[..|pairs| - 1];
      var last := pairs[|pairs| - 1];
      var d := DictOf(init)[last.0 := last.1];
      assert pairs == init + [last];
      assert forall i :: 0 <= i < |init| && LastOfItsKey(pairs, i) ==>
        LastOfItsKey(init, i) && init[i].0 != last.0;
      d
  }

  /** Defaults zipped with the reversed parameter names (pavlov.py line 6). */
  function DefaultsMap<V>(names: seq<string>, defaults: seq<V>): map<string, V> {
    DictOf(Zip(Reverse(names), Reverse(defaults)))
  }

  /** Positional arguments zipped with the parameter names (pavlov.py line 7). */
  function PositionalMap<V>(names: seq<string>, args: seq<V>): map<string, V> {
    DictOf(Zip(names, args))
  }

  /**
   The binding `arg_dict` returns: defaults, overridden by positional
   arguments, overridden by keyword arguments. Keywords are not filtered
   against the parameter names.
   */
  function ArgDict<V>(names: seq<string>, defaults: seq<V>, args: seq<V>, kwds: map<string, V>)
    : (d: map<string, V>)
    ensures forall k :: k in kwds ==> k in d && d[k] == kwds[k]
    ensures forall k :: k !in kwds && k in PositionalMap(names, args) ==>
              k in d && d[k] == PositionalMap(names, args)[k]
    ensures forall k :: k !in kwds && k !in PositionalMap(names, args) ==>
              (k in d <==> k in DefaultsMap(names, defaults)) &&
              (k in d ==> d[k] == DefaultsMap(names, defaults)[k])
  {
    var d := DefaultsMap(names, defaults);
    var a := PositionalMap(names, args);
    d + a + kwds
  }

  /** In distinct names, an entry is the last with its key. */
  lemma DistinctKeysAreLast<V>(pairs: seq<(string, V)>, i: int)
    requires 0 <= i < |pairs|
    requires forall p, q :: 0 <= p < q < |pairs| ==> pairs[p].0 != pairs[q].0
    ensures LastOfItsKey(pairs, i)
  {
  }

  /** The pairs line 6 of pavlov.py builds: the reversed names with the reversed defaults. */
  lemma ReversedPairs<V>(names: seq<string>, defaults: seq<V>)
    ensures var pairs := Zip(Reverse(names), Reverse(defaults));
      && |pairs| == Min(|names|, |defaults|)
      && forall i :: 0 <= i < |pairs| ==>
           pairs[i] == (names[|names| - 1 - i], defaults[|defaults| - 1 - i])
  {
  }

  /** Exactly the last `min(|names|, |defaults|)` names receive a default. */
  lemma DefaultsKeys<V>(names: seq<string>, defaults: seq<V>)
    ensures DefaultsMap(names, defaults).Keys ==
            set j | |names| - Min(|names|, |defaults|) <= j < |names| :: names[j]
  {
    var pairs := Zip(Reverse(names), Reverse(defaults));
    ReversedPairs(names, defaults);
    var n := |pairs|;
    var lhs := set i | 0 <= i < n :: pairs[i].0;
    var rhs := set j | |names| - n <= j < |names| :: names[j];
    forall k | k in lhs ensures k in rhs {
      var i :| 0 <= i < n && pairs[i].0 == k;
      assert names[|names| - 1 - i] == k;
    }
    forall k | k in rhs ensures k in lhs {
      var j :| |names| - n <= j < |names| && names[j] == k;
      assert pairs[|names| - 1 - j].0 == k;
    }
  }

  /** The reversed names are as distinct as the names. */
  lemma ReversedPairsDistinct<V>(names: seq<string>, defaults: seq<V>)
    requires Distinct(names)
    ensures var pairs := Zip(Reverse(names), Reverse(defaults));
      forall p, q :: 0 <= p < q < |pairs| ==> pairs[p].0 != pairs[q].0
  {
    var pairs := Zip(Reverse(names), Reverse(defaults));
    ReversedPairs(names, defaults);
    forall p, q | 0 <= p < q < |pairs| ensures pairs[p].0 != pairs[q].0 {
      assert pairs[p].0 == names[|names| - 1 - p];
      assert pairs[q].0 == names[|names| - 1 - q];
    }
  }

  /** The default of one trailing parameter `names[j]`. */
  lemma DefaultOfParameter<V>(names: seq<string>, defaults: seq<V>, j: int)
    requires Distinct(names)
    requires |names| - |defaults| <= j < |names|
    requires 0 <= j
    ensures names[j] in DefaultsMap(names, defaults)
    ensures DefaultsMap(names, defaults)[names[j]] == defaults[j - (|names| - |defaults|)]
  {
    var pairs := Zip(Reverse(names), Reverse(defaults));
    ReversedPairs(names, defaults);
    ReversedPairsDistinct(names, defaults);
    var i := |names| - 1 - j;
    DistinctKeysAreLast(pairs, i);
    assert pairs[i] == (names[j], defaults[j - (|names| - |defaults|)]);
  }

  /**
   Defaults are right-aligned: exactly the last `min(|names|, |defaults|)`
   names receive a default, and the `i`-th name from the end is bound to the
   `i`-th default from the end (so `names[j]` takes
   `defaults[j - (|names| - |defaults|)]`).
   */
  lemma DefaultsRightAligned<V>(names: seq<string>, defaults: seq<V>)
    requires Distinct(names)
    ensures DefaultsMap(names, defaults).Keys ==
            set j | |names| - Min(|names|, |defaults|) <= j < |names| :: names[j]
    ensures forall j :: |names| - Min(|names|, |defaults|) <= j < |names| ==>
              DefaultsMap(names, defaults)[names[j]] == defaults[j - (|names| - |defaults|)]
  {
    DefaultsKeys(names, defaults);
    forall j | |names| - Min(|names|, |defaults|) <= j < |names|
      ensures DefaultsMap(names, defaults)[names[j]] == defaults[j - (|names| - |defaults|)]
    {
      DefaultOfParameter(names, defaults, j);
    }
  }

  /**
   Positional arguments bind by position: `names[i]` is bound to `args[i]`
   for every position both sequences have; surplus arguments are dropped.
   */
  lemma PositionalByPosition<V>(names: seq<string>, args: seq<V>)
    requires Distinct(names)
    ensures PositionalMap(names, args).Keys == set j | 0 <= j < Min(|names|, |args|) :: names[j]
    ensures forall i :: 0 <= i < Min(|names|, |args|) ==> PositionalMap(names, args)[names[i]] == args[i]
  {
    var pairs := Zip(names, args);
    forall i | 0 <= i < |pairs|
      ensures PositionalMap(names, args)[names[i]] == args[i]
    {
      DistinctKeysAreLast(pairs, i);
    }
  }

  /**
   The complete binding of a declared parameter: the keyword argument if one
   names it, else the positional argument in its slot, else its default when
   it is among the trailing `|defaults|` names, else it is unbound.
   */
  lemma ArgDictOfParameter<V>(names: seq<string>, defaults: seq<V>, args: seq<V>,
                              kwds: map<string, V>, j: int)
    requires Distinct(names)
    requires 0 <= j < |names|
    ensures var d := ArgDict(names, defaults, args, kwds);
      if names[j] in kwds then names[j] in d && d[names[j]] == kwds[names[j]]
      else if j < |args| then names[j] in d && d[names[j]] == args[j]
      else if |names| - |defaults| <= j then
        names[j] in d && d[names[j]] == defaults[j - (|names| - |defaults|)]
      else names[j] !in d
  {
    var k := names[j];
    PositionalByPosition(names, args);
    DefaultsRightAligned(names, defaults);
    var n := Min(|names|, |defaults|);
    if k !in kwds && j >= |args| {
      assert forall p :: 0 <= p < Min(|names|, |args|) ==> names[p] != k;
      if |names| - |defaults| > j {
        assert forall p :: |names| - n <= p < |names| ==> names[p] != k;
      }
    }
  }

  /**
   The binding's keys are exactly the names that receive a default, the
   names covered by a positional argument, and every keyword given.
   */
  lemma ArgDictKeys<V>(names: seq<string>, defaults: seq<V>, args: seq<V>, kwds: map<string, V>)
    requires Distinct(names)
    ensures ArgDict(names, defaults, args, kwds).Keys ==
              (set j | Max(0, |names| - |defaults|) <= j < |names| :: names[j])
            + (set j | 0 <= j < Min(|names|, |args|) :: names[j])
            + kwds.Keys
  {
    DefaultsRightAligned(names, defaults);
    PositionalByPosition(names, args);
    assert (set j | Max(0, |names| - |defaults|) <= j < |names| :: names[j]) ==
           (set j | |names| - Min(|names|, |defaults|) <= j < |names| :: names[j]);
  }

  /** Every key of the binding is a declared parameter or a keyword argument. */
  lemma ArgDictKeysDeclared<V>(names: seq<string>, defaults: seq<V>, args: seq<V>,
                               kwds: map<string, V>)
    ensures forall k :: k in ArgDict(names, defaults, args, kwds) ==> k in names || k in kwds
  {
    ReversedPairs(names, defaults);
  }

  /** A call naming every parameter by keyword binds exactly its keywords, whatever the defaults. */
  lemma AllKeywordCall<V>(names: seq<string>, defaults: seq<V>, kwds: map<string, V>)
    requires forall j :: 0 <= j < |names| ==> names[j] in kwds
    ensures ArgDict(names, defaults, [], kwds) == kwds
  {
    var d := ArgDict(names, defaults, [], kwds);
    ArgDictKeysDeclared(names, defaults, [], kwds);
    assert d.Keys == kwds.Keys;
  }

  /** A keyword that is not a declared parameter still lands in the binding. */
  lemma UndeclaredKeywordBound<V>(names: seq<string>, defaults: seq<V>, args: seq<V>,
                                  kwds: map<string, V>, k: string)
    requires k in kwds
    requires k !in names
    ensures k in ArgDict(names, defaults, args, kwds)
    ensures ArgDict(names, defaults, args, kwds)[k] == kwds[k]
  {
  }
}

/** `parse_iterated_vars` and `parse_relative_vars` of src/load_specs.py:
    binding one point of the parameter sweep, and the relative variables
    derived from it, into `vars_to_pass`, the dictionary of keyword arguments
    handed to the simulation.

    Both functions update the caller's dictionary in place and return it. Here
    each takes the dictionary's contents and gives back its contents
    afterwards, together with the exception that escapes, if any; the updates
    made before an exception are kept, as they are in the caller's dictionary. */
module BindVars {
  import opened Wrappers
  import opened PyText
  import opened OrderedDicts
  import opened LoadSpecs

  /** A value in vars_to_pass: a sampled number, or what `eval` makes of a rule
      once the named iterated variable is replaced by the given value. */
  datatype Value = Number(x: Float) | Evaluated(rule: string, variable: string, argument: Value)

  type Env = map<string, Value>

  // ---------------------------------------------------------------------------
  // parse_iterated_vars

  /** Python's `arr[idx]`: a negative index counts from the end, so the
      valid indices are -|arr| up to |arr| - 1, taken modulo |arr|. */
  function PyIndex<T>(arr: seq<T>, idx: int): (r: Option<T>)
    ensures r.Some? <==> -|arr| <= idx < |arr|
    ensures r.Some? ==> r.value == arr[idx % |arr|]
  {
    if 0 <= idx < |arr| then Some(arr[idx])
    else if -|arr| <= idx < 0 then Some(arr[|arr| + idx])
    else None
  }

  /** The value that the i-th sweep index selects from the range of the i-th
      iterated variable, or None when the index is out of range. */
  function Selected(d: OrderedDict<string, seq<Float>>, idxs: seq<int>, i: nat): Option<Float>
    requires d.Valid() && i < |d.keys| && i < |idxs|
  {
    PyIndex(d.entries[d.keys[i]], idxs[i])
  }

  /** vars_to_pass once the first n iterated variables are bound, in key order. */
  function Bound(d: OrderedDict<string, seq<Float>>, idxs: seq<int>, env: Env, n: nat): Env
    requires d.Valid() && n <= |d.keys| && n <= |idxs|
    requires forall i :: 0 <= i < n ==> Selected(d, idxs, i).Some?
    decreases n
  {
    if n == 0 then env
    else Bound(d, idxs, env, n - 1)[d.keys[n - 1] := Number(Selected(d, idxs, n - 1).value)]
  }

  /** Once the first n iterated variables are bound, the keys of vars_to_pass
      are the old ones and those n: no other key is added. */
  lemma {:induction false} BoundKeys(d: OrderedDict<string, seq<Float>>, idxs: seq<int>, env: Env, n: nat)
    requires d.Valid() && n <= |d.keys| && n <= |idxs|
    requires forall i :: 0 <= i < n ==> Selected(d, idxs, i).Some?
    ensures forall k :: k in Bound(d, idxs, env, n) <==> k in env || k in d.keys[..n]
    decreases n
  {
    if n > 0 {
      BoundKeys(d, idxs, env, n - 1);
      assert d.keys[..n] == d.keys[..n - 1] + [d.keys[n - 1]];
    }
  }

  /** Once the first n iterated variables are bound, the i-th of them holds
      the value its sweep index selects. */
  lemma {:induction false} BoundSelects(d: OrderedDict<string, seq<Float>>, idxs: seq<int>, env: Env, n: nat)
    requires d.Valid() && n <= |d.keys| && n <= |idxs|
    requires forall i :: 0 <= i < n ==> Selected(d, idxs, i).Some?
    ensures forall i :: 0 <= i < n ==>
      d.keys[i] in Bound(d, idxs, env, n) && Bound(d, idxs, env, n)[d.keys[i]] == Number(Selected(d, idxs, i).value)
    decreases n
  {
    if n > 0 {
      BoundSelects(d, idxs, env, n - 1);
      var prev, key := Bound(d, idxs, env, n - 1), d.keys[n - 1];
      forall i | 0 <= i < n - 1
        ensures Bound(d, idxs, env, n)[d.keys[i]] == prev[d.keys[i]]
      {
        assert d.keys[i] != key;
      }
    }
  }

  /** Binding the iterated variables leaves every other key as it was. */
  lemma {:induction false} BoundKeeps(d: OrderedDict<string, seq<Float>>, idxs: seq<int>, env: Env, n: nat)
    requires d.Valid() && n <= |d.keys| && n <= |idxs|
    requires forall i :: 0 <= i < n ==> Selected(d, idxs, i).Some?
    ensures forall k :: k in env && k !in d.keys[..n] ==> k in Bound(d, idxs, env, n) && Bound(d, idxs, env, n)[k] == env[k]
    decreases n
  {
    if n > 0 {
      BoundKeeps(d, idxs, env, n - 1);
      assert d.keys[..n] == d.keys[..n - 1] + [d.keys[n - 1]];
    }
  }

  /** The first position from i on whose sweep index is out of range, or the
      number of iterated variables when there is none. */
  function FirstOutOfRange(d: OrderedDict<string, seq<Float>>, idxs: seq<int>, i: nat): (j: nat)
    requires d.Valid() && |idxs| == |d.keys| && i <= |d.keys|
    ensures i <= j <= |d.keys|
    ensures forall m :: i <= m < j ==> Selected(d, idxs, m).Some?
    ensures j < |d.keys| ==> Selected(d, idxs, j).None?
    decreases |d.keys| - i
  {
    if i == |d.keys| then i
    else if Selected(d, idxs, i).None? then i
    else FirstOutOfRange(d, idxs, i + 1)
  }

  /** Every sweep index is in range exactly when none is out of range. */
  lemma AllInRange(d: OrderedDict<string, seq<Float>>, idxs: seq<int>)
    requires d.Valid() && |idxs| == |d.keys|
    ensures FirstOutOfRange(d, idxs, 0) == |d.keys| <==>
      forall i :: 0 <= i < |idxs| ==> -|d.entries[d.keys[i]]| <= idxs[i] < |d.entries[d.keys[i]]|
  {
    var j := FirstOutOfRange(d, idxs, 0);
    if j < |d.keys| {
      assert Selected(d, idxs, j).None?;
    } else {
      forall i | 0 <= i < |idxs|
        ensures -|d.entries[d.keys[i]]| <= idxs[i] < |d.entries[d.keys[i]]|
      {
        assert Selected(d, idxs, i).Some?;
      }
    }
  }

  /** `parse_iterated_vars(iter_vars, iter_vars_idxs, vars_to_pass)`: one sweep
      index per iterated variable is required; then the iterated variables are
      bound in key order, and the first index out of range raises IndexError
      with the earlier ones already bound. */
  method ParseIteratedVars(iterVars: OrderedDict<string, seq<Float>>, idxs: seq<int>, varsToPass: Env)
    returns (raised: Option<Error>, after: Env)
    requires iterVars.Valid()
    ensures |idxs| != |iterVars.keys| ==>
      raised == Some(WrongIndexCount(|iterVars.keys|, |idxs|)) && after == varsToPass
    ensures |idxs| == |iterVars.keys| ==>
      var j := FirstOutOfRange(iterVars, idxs, 0);
      && after == Bound(iterVars, idxs, varsToPass, j)
      && (raised.None? <==> j == |iterVars.keys|)
      && (raised.None? <==> forall i :: 0 <= i < |idxs| ==>
            -|iterVars.entries[iterVars.keys[i]]| <= idxs[i] < |iterVars.entries[iterVars.keys[i]]|)
      && (raised.Some? ==> raised == Some(IndexError))
  {
    after := varsToPass;
    if |idxs| != |iterVars.keys| {
      return Some(WrongIndexCount(|iterVars.keys|, |idxs|)), after;
    }
    var i := 0;
    while i < |iterVars.keys|
      invariant 0 <= i <= |iterVars.keys|
      invariant forall m :: 0 <= m < i ==> Selected(iterVars, idxs, m).Some?
      invariant FirstOutOfRange(iterVars, idxs, 0) == FirstOutOfRange(iterVars, idxs, i)
      invariant after == Bound(iterVars, idxs, varsToPass, i)
    {
      var iterVar := iterVars.keys[i];
      var value := PyIndex(iterVars.entries[iterVar], idxs[i]);
      if value.None? {
        AllInRange(iterVars, idxs);
        return Some(IndexError), after;
      }
      after := after[iterVar := Number(value.value)];
      i := i + 1;
    }
    AllInRange(iterVars, idxs);
    raised := None;
  }

  // ---------------------------------------------------------------------------
  // parse_relative_vars

  /** The position of the first name, from position j on, that occurs in rule. */
  function FirstMatchFrom(names: seq<string>, rule: string, j: nat): (r: Option<nat>)
    requires j <= |names|
    ensures r.Some? ==> j <= r.value < |names|
    decreases |names| - j
  {
    if j == |names| then None
    else if Contains(rule, names[j]) then Some(j)
    else FirstMatchFrom(names, rule, j + 1)
  }

  /** No name from position j on occurs in the rule exactly when there is no
      match; otherwise the match is the first name from j on that occurs. */
  lemma {:induction false} FirstMatchFromSpec(names: seq<string>, rule: string, j: nat)
    requires j <= |names|
    ensures FirstMatchFrom(names, rule, j).None? <==> forall m :: j <= m < |names| ==> !Contains(rule, names[m])
    ensures FirstMatchFrom(names, rule, j).Some? ==>
      var k := FirstMatchFrom(names, rule, j).value;
      && Contains(rule, names[k])
      && forall m :: j <= m < k ==> !Contains(rule, names[m])
    decreases |names| - j
  {
    if j < |names| && !Contains(rule, names[j]) {
      FirstMatchFromSpec(names, rule, j + 1);
    }
  }

  /** The first iterated variable, in key order, whose name occurs in rule. */
  function FirstMatch(names: seq<string>, rule: string): (r: Option<nat>)
    ensures r.Some? ==> r.value < |names|
  {
    FirstMatchFrom(names, rule, 0)
  }

  /** No match exactly when no iterated variable's name occurs in the rule;
      otherwise the first one in key order that occurs, so later matches are
      ignored. */
  lemma FirstMatchSpec(names: seq<string>, rule: string)
    ensures FirstMatch(names, rule).None? <==> forall m :: 0 <= m < |names| ==> !Contains(rule, names[m])
    ensures FirstMatch(names, rule).Some? ==>
      && Contains(rule, names[FirstMatch(names, rule).value])
      && forall m :: 0 <= m < FirstMatch(names, rule).value ==> !Contains(rule, names[m])
  {
    FirstMatchFromSpec(names, rule, 0);
  }

  /** `order` is the iteration order of the dictionary `rules`: each key once. */
  predicate DictOrder(rules: map<string, string>, order: seq<string>) {
    && (forall i, j :: 0 <= i < j < |order| ==> order[i] != order[j])
    && rules.Keys == set k | k in order
  }

  /** The state of the loop over the relative variables: the exception raised
      so far, vars_to_pass, and `flag` (None while it is unassigned). */
  datatype RelState = RelState(raised: Option<Error>, env: Env, flag: Option<bool>)

  /** One iteration for relative variable rel with its rule: reject it when
      it is bound already, else bind it through the first iterated variable
      the rule names. With perVariableCheck, a rule that names none raises at
      once; without it, only the flag records that. */
  function RelStep(st: RelState, rel: string, rule: string, names: seq<string>, perVariableCheck: bool): RelState {
    if st.raised.Some? then st
    else if rel in st.env then RelState(Some(AlreadyBound(rel)), st.env, st.flag)
    else match FirstMatch(names, rule)
      case None =>
        if perVariableCheck then RelState(Some(NoIteratedDependency(rel, rule)), st.env, Some(false))
        else RelState(None, st.env, Some(false))
      case Some(k) =>
        var iterVar := names[k];
        if iterVar in st.env then RelState(None, st.env[rel := Evaluated(rule, iterVar, st.env[iterVar])], Some(true))
        else RelState(Some(KeyError(iterVar)), st.env, Some(true))
  }

  /** The state after the first n relative variables, in dictionary order.
      Unless something raised, the flag is assigned once a relative variable
      has been handled. */
  function RelRun(rules: map<string, string>, order: seq<string>, names: seq<string>, env: Env, n: nat, perVariableCheck: bool): (r: RelState)
    requires DictOrder(rules, order) && n <= |order|
    ensures r.raised.None? ==> (r.flag.None? <==> n == 0)
    decreases n
  {
    if n == 0 then RelState(None, env, None)
    else RelStep(RelRun(rules, order, names, env, n - 1, perVariableCheck), order[n - 1], rules[order[n - 1]], names, perVariableCheck)
  }

  /** `parse_relative_vars` as written: the flag is tested once, after the
      loop, so it speaks only for the last relative variable, and it was
      never assigned when there is no relative variable at all. */
  function RelativeOutcome(rules: map<string, string>, order: seq<string>, names: seq<string>, env: Env): (Option<Error>, Env)
    requires DictOrder(rules, order)
  {
    var st := RelRun(rules, order, names, env, |order|, false);
    if st.raised.Some? then (st.raised, st.env)
    else if st.flag.None? then (Some(UnboundFlag), st.env)
    else if !st.flag.value then (Some(NoIteratedDependency(order[|order| - 1], rules[order[|order| - 1]])), st.env)
    else (None, st.env)
  }

  /** `parse_relative_vars` as evidently intended: every relative variable
      must depend on an iterated variable, and no relative variable at all is
      no error. */
  function CheckedRelativeOutcome(rules: map<string, string>, order: seq<string>, names: seq<string>, env: Env): (Option<Error>, Env)
    requires DictOrder(rules, order)
  {
    var st := RelRun(rules, order, names, env, |order|, true);
    (st.raised, st.env)
  }

  /** Keys are only ever added: what vars_to_pass held stays as it was. */
  lemma {:induction false} RelRunKeeps(rules: map<string, string>, order: seq<string>, names: seq<string>, env: Env, n: nat, check: bool)
    requires DictOrder(rules, order) && n <= |order|
    ensures forall k :: k in env ==>
      k in RelRun(rules, order, names, env, n, check).env && RelRun(rules, order, names, env, n, check).env[k] == env[k]
    decreases n
  {
    if n > 0 {
      RelRunKeeps(rules, order, names, env, n - 1, check);
    }
  }

  lemma {:induction false} RelRunRaisedStays(rules: map<string, string>, order: seq<string>, names: seq<string>, env: Env, i: nat, n: nat, check: bool)
    requires DictOrder(rules, order) && i <= n <= |order|
    requires RelRun(rules, order, names, env, i, check).raised.Some?
    ensures RelRun(rules, order, names, env, n, check) == RelRun(rules, order, names, env, i, check)
    decreases n
  {
    if n > i {
      RelRunRaisedStays(rules, order, names, env, i, n - 1, check);
    }
  }

  /** `parse_relative_vars(rel_vars, iter_vars, vars_to_pass)`, with the
      iteration order of `rel_vars` given as `order`. */
  method ParseRelativeVars(relVars: map<string, string>, order: seq<string>, iterVars: OrderedDict<string, seq<Float>>, varsToPass: Env)
    returns (raised: Option<Error>, after: Env)
    requires DictOrder(relVars, order)
    ensures (raised, after) == RelativeOutcome(relVars, order, iterVars.keys, varsToPass)
  {
    var names := iterVars.keys;
    after := varsToPass;
    var flag: Option<bool> := None;
    var i := 0;
    while i < |order|
      invariant 0 <= i <= |order|
      invariant RelRun(relVars, order, names, varsToPass, i, false) == RelState(None, after, flag)
      invariant flag.None? <==> i == 0
    {
      var relVar := order[i];
      var varRule := relVars[relVar];
      ghost var before := RelState(None, after, flag);
      if relVar in after {
        RelRunRaisedStays(relVars, order, names, varsToPass, i + 1, |order|, false);
        return Some(AlreadyBound(relVar)), after;
      }
      flag := Some(false);
      var j := 0;
      while j < |names|
        invariant 0 <= j <= |names|
        invariant FirstMatch(names, varRule) == FirstMatchFrom(names, varRule, j)
        invariant flag == Some(false) && after == before.env
      {
        var iterVar := names[j];
        if Contains(varRule, iterVar) {
          flag := Some(true);
          if iterVar !in after {
            RelRunRaisedStays(relVars, order, names, varsToPass, i + 1, |order|, false);
            return Some(KeyError(iterVar)), after;
          }
          after := after[relVar := Evaluated(varRule, iterVar, after[iterVar])];
          assert RelStep(before, relVar, varRule, names, false) == RelState(None, after, flag);
          break;
        }
        j := j + 1;
      }
      assert RelRun(relVars, order, names, varsToPass, i + 1, false) == RelState(None, after, flag);
      i := i + 1;
    }
    if flag.None? {
      return Some(UnboundFlag), after;
    }
    if !flag.value {
      return Some(NoIteratedDependency(order[|order| - 1], relVars[order[|order| - 1]])), after;
    }
    raised := None;
  }

  // ---------------------------------------------------------------------------
  // What parse_relative_vars binds

  /** `after` is vars_to_pass once the first n relative variables are handled
      without error: the old entries are kept, and each of those relative
      variables whose rule names an iterated variable is bound to its rule
      evaluated at the first such variable (in key order); the others are
      left unbound, and nothing else is added. */
  ghost predicate RelBound(rules: map<string, string>, order: seq<string>, names: seq<string>, env: Env, n: nat, after: Env)
    requires DictOrder(rules, order) && n <= |order|
  {
    && (forall k :: k in after ==> k in env || exists i :: 0 <= i < n && order[i] == k)
    && (forall k :: k in env ==> k in after && after[k] == env[k])
    && (forall i :: 0 <= i < n ==> (order[i] in after <==> FirstMatch(names, rules[order[i]]).Some?))
    && (forall i :: 0 <= i < n && FirstMatch(names, rules[order[i]]).Some? ==>
          var iterVar := names[FirstMatch(names, rules[order[i]]).value];
          iterVar in env && after[order[i]] == Evaluated(rules[order[i]], iterVar, env[iterVar]))
  }

  /** One more relative variable, not bound beforehand, extends RelBound. */
  lemma RelStepBinds(rules: map<string, string>, order: seq<string>, names: seq<string>, env: Env, n: nat, st: RelState, check: bool)
    requires DictOrder(rules, order) && 0 < n <= |order|
    requires forall m :: 0 <= m < |names| ==> names[m] in env
    requires order[n - 1] !in env
    requires check ==> FirstMatch(names, rules[order[n - 1]]).Some?
    requires st.raised.None? && RelBound(rules, order, names, env, n - 1, st.env)
    ensures RelStep(st, order[n - 1], rules[order[n - 1]], names, check).raised.None?
    ensures RelStep(st, order[n - 1], rules[order[n - 1]], names, check).flag == Some(FirstMatch(names, rules[order[n - 1]]).Some?)
    ensures RelBound(rules, order, names, env, n, RelStep(st, order[n - 1], rules[order[n - 1]], names, check).env)
  {
    var rel, rule := order[n - 1], rules[order[n - 1]];
    var after := RelStep(st, rel, rule, names, check).env;
    match FirstMatch(names, rule)
    case None =>
      assert after == st.env;
    case Some(k) =>
      var iterVar := names[k];
      assert iterVar in env;
      assert after == st.env[rel := Evaluated(rule, iterVar, env[iterVar])];
      forall i | 0 <= i < n
        ensures order[i] in after <==> FirstMatch(names, rules[order[i]]).Some?
      {
        if i < n - 1 {
          assert order[i] != rel;
        }
      }
      forall i | 0 <= i < n - 1 && FirstMatch(names, rules[order[i]]).Some?
        ensures after[order[i]] == st.env[order[i]]
      {
        assert order[i] != rel;
      }
  }

  /** With every iterated variable bound and no relative variable bound
      beforehand, nothing raises (per-variable check aside), the flag
      speaks for the latest relative variable, and the bindings are RelBound. */
  lemma {:induction false} RelRunBinds(rules: map<string, string>, order: seq<string>, names: seq<string>, env: Env, n: nat, check: bool)
    requires DictOrder(rules, order) && n <= |order|
    requires forall m :: 0 <= m < |names| ==> names[m] in env
    requires forall i :: 0 <= i < n ==> order[i] !in env
    requires check ==> forall i :: 0 <= i < n ==> FirstMatch(names, rules[order[i]]).Some?
    ensures RelRun(rules, order, names, env, n, check).raised.None?
    ensures n > 0 ==> RelRun(rules, order, names, env, n, check).flag == Some(FirstMatch(names, rules[order[n - 1]]).Some?)
    ensures RelBound(rules, order, names, env, n, RelRun(rules, order, names, env, n, check).env)
    decreases n
  {
    if n > 0 {
      RelRunBinds(rules, order, names, env, n - 1, check);
      RelStepBinds(rules, order, names, env, n, RelRun(rules, order, names, env, n - 1, check), check);
    }
  }

  /** A relative variable that is already in vars_to_pass makes the loop
      raise, whichever check is made. */
  lemma RelRunRaises(rules: map<string, string>, order: seq<string>, names: seq<string>, env: Env, i: nat, n: nat, check: bool)
    requires DictOrder(rules, order) && i < n <= |order|
    requires order[i] in env
    ensures RelRun(rules, order, names, env, n, check).raised.Some?
  {
    RelRunKeeps(rules, order, names, env, i, check);
    assert RelRun(rules, order, names, env, i + 1, check).raised.Some?;
    RelRunRaisedStays(rules, order, names, env, i + 1, n, check);
  }

  /** With the per-variable check, a rule that names no iterated variable
      makes the loop raise. */
  lemma RelRunChecksEach(rules: map<string, string>, order: seq<string>, names: seq<string>, env: Env, i: nat, n: nat)
    requires DictOrder(rules, order) && i < n <= |order|
    requires FirstMatch(names, rules[order[i]]).None?
    ensures RelRun(rules, order, names, env, n, true).raised.Some?
  {
    assert RelRun(rules, order, names, env, i + 1, true).raised.Some?;
    RelRunRaisedStays(rules, order, names, env, i + 1, n, true);
  }

  /** As written, once the iterated variables are bound: the call succeeds
      exactly when there is some relative variable, none of them is bound
      already, and the LAST one's rule names an iterated variable; then the
      bindings are those of RelBound, so earlier relative variables whose
      rules name no iterated variable are silently left unbound. */
  lemma RelativeOutcomeIff(rules: map<string, string>, order: seq<string>, names: seq<string>, env: Env)
    requires DictOrder(rules, order)
    requires forall m :: 0 <= m < |names| ==> names[m] in env
    ensures RelativeOutcome(rules, order, names, env).0.None? <==>
      && |order| > 0
      && (forall i :: 0 <= i < |order| ==> order[i] !in env)
      && FirstMatch(names, rules[order[|order| - 1]]).Some?
    ensures RelativeOutcome(rules, order, names, env).0.None? ==>
      RelBound(rules, order, names, env, |order|, RelativeOutcome(rules, order, names, env).1)
  {
    if forall i :: 0 <= i < |order| ==> order[i] !in env {
      RelRunBinds(rules, order, names, env, |order|, false);
    } else {
      var i :| 0 <= i < |order| && order[i] in env;
      RelRunRaises(rules, order, names, env, i, |order|, false);
    }
  }

  /** As written: the first relative variable (in dictionary order) that is
      already in vars_to_pass raises AlreadyBound, once the iterated
      variables are bound. */
  lemma AlreadyBoundRaises(rules: map<string, string>, order: seq<string>, names: seq<string>, env: Env, i: nat)
    requires DictOrder(rules, order) && i < |order|
    requires forall m :: 0 <= m < |names| ==> names[m] in env
    requires order[i] in env && forall m :: 0 <= m < i ==> order[m] !in env
    ensures RelativeOutcome(rules, order, names, env).0 == Some(AlreadyBound(order[i]))
  {
    RelRunBinds(rules, order, names, env, i, false);
    assert RelRun(rules, order, names, env, i + 1, false).raised == Some(AlreadyBound(order[i]));
    RelRunRaisedStays(rules, order, names, env, i + 1, |order|, false);
  }

  /** As intended, once the iterated variables are bound: the call succeeds
      exactly when no relative variable is bound already and every rule
      names an iterated variable; then every relative variable is bound
      through RelBound, and nothing else changes. */
  lemma CheckedRelativeOutcomeIff(rules: map<string, string>, order: seq<string>, names: seq<string>, env: Env)
    requires DictOrder(rules, order)
    requires forall m :: 0 <= m < |names| ==> names[m] in env
    ensures CheckedRelativeOutcome(rules, order, names, env).0.None? <==>
      forall i :: 0 <= i < |order| ==> order[i] !in env && FirstMatch(names, rules[order[i]]).Some?
    ensures CheckedRelativeOutcome(rules, order, names, env).0.None? ==>
      && RelBound(rules, order, names, env, |order|, CheckedRelativeOutcome(rules, order, names, env).1)
      && forall i :: 0 <= i < |order| ==> order[i] in CheckedRelativeOutcome(rules, order, names, env).1
  {
    if forall i :: 0 <= i < |order| ==> order[i] !in env && FirstMatch(names, rules[order[i]]).Some? {
      RelRunBinds(rules, order, names, env, |order|, true);
    } else {
      var i :| 0 <= i < |order| && !(order[i] !in env && FirstMatch(names, rules[order[i]]).Some?);
      if order[i] in env {
        RelRunRaises(rules, order, names, env, i, |order|, true);
      } else {
        RelRunChecksEach(rules, order, names, env, i, |order|);
      }
    }
  }

  /** As written, with no relative variable the flag is never assigned, and
      the final test raises UnboundLocalError. */
  lemma NoRelativeVarsUnboundFlag(names: seq<string>, env: Env)
    ensures RelativeOutcome(map[], [], names, env) == (Some(UnboundFlag), env)
  {
  }

  /** As intended, no relative variable leaves vars_to_pass as it was. */
  lemma CheckedNoRelativeVars(names: seq<string>, env: Env)
    ensures CheckedRelativeOutcome(map[], [], names, env) == (None, env)
  {
  }

  /** A relative variable whose rule names no iterated variable goes unnoticed
      unless it comes last: with iterated variable x and rules a = "2",
      b = "3*x" in that order, the call as written succeeds and leaves a
      unbound; the corrected call raises for a. */
  lemma UnmatchedRelativeVarSkipped()
    ensures var env: Env := map["x" := Number(Literal("1"))];
      var rules := map["a" := "2", "b" := "3*x"];
      && RelativeOutcome(rules, ["a", "b"], ["x"], env) == (None, env["b" := Evaluated("3*x", "x", env["x"])])
      && CheckedRelativeOutcome(rules, ["a", "b"], ["x"], env) == (Some(NoIteratedDependency("a", "2")), env)
  {
    var rules := map["a" := "2", "b" := "3*x"];
    assert DictOrder(rules, ["a", "b"]);
    assert !Contains("2", "x") by {
      assert "2"[..1][0] != "x"[0];
      assert "2"[1..] == [];
      assert !StartsWith([], "x");
    }
    assert Contains("3*x", "x") by {
      assert "3*x"[1..] == "*x";
      assert "*x"[1..] == "x";
      assert StartsWith("x", "x");
    }
    assert FirstMatch(["x"], "2") == None;
    assert FirstMatch(["x"], "3*x") == Some(0);
    var env: Env := map["x" := Number(Literal("1"))];
    var bound := env["b" := Evaluated("3*x", "x", env["x"])];
    assert RelRun(rules, ["a", "b"], ["x"], env, 1, false) == RelState(None, env, Some(false));
    assert RelRun(rules, ["a", "b"], ["x"], env, 2, false) == RelState(None, bound, Some(true));
    assert RelRun(rules, ["a", "b"], ["x"], env, 1, true) == RelState(Some(NoIteratedDependency("a", "2")), env, Some(false));
    RelRunRaisedStays(rules, ["a", "b"], ["x"], env, 1, 2, true);
  }
}

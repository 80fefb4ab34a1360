# Run specifications for the compressed-sensing odor decoder

This is a Dafny model of `src/load_specs.py`, the run-specification reader of
the compressed-sensing odor decoding simulations. It covers three functions.

- **`read_specs_file`** reads a specifications file line by line into four
  dictionaries:
  - `iter_vars`, an `OrderedDict` from each iterated variable to its sampled
    range (`lin` or `exp` scaling);
  - `fixed_vars`, from each fixed variable to its value;
  - `rel_vars`, from each relative variable to the rule, as text, that derives
    it from an iterated variable;
  - `params`, from each overridden parameter to its integer value.

  It returns them in a dictionary keyed by `rel_vars`, `fixed_vars`, `params`
  and `iter_vars`.
- **`parse_iterated_vars`** binds one point of the sweep into `vars_to_pass`,
  the keyword arguments of the simulation. It takes one index per iterated
  variable, and a negative index counts from the end.
- **`parse_relative_vars`** binds each relative variable. It rejects a relative
  variable that is already bound. It evaluates the rule at the first iterated
  variable, in key order, whose name occurs in the rule.

The model has five modules:

| module | file | models |
|---|---|---|
| `Wrappers` | `wrappers.dfy` | `Option` and `Result` |
| `PyText` | `py_text.dfy` | the Python 2 string operations on a line: `strip()`, `startswith`, `split()` and `in` |
| `OrderedDicts` | `ordered_dict.dfy` | an `OrderedDict`: a key sequence plus a map |
| `LoadSpecs` | `load_specs.dfy` | the reader |
| `BindVars` | `bind_vars.dfy` | the two binders |

## How the model works

**The reader.**
- `ReadSpecsFile` is the reader's loop over the file's lines. It fills four
  local dictionaries and stops at the first exception.
- `ReadSpecs` is the same reader as a function: a left fold of `ApplyLine`
  over the lines, proved equal to the loop.
- Each line is classified by `ParseLine`.

**Numbers are kept symbolic.**
- Which tokens `float()` accepts, and what `int()` makes of a token, is the
  `Numerics` parameter.
- A float is the literal token it was read from.
- A `linspace` sample is `LinspacePoint(lo, hi, N, k)`. An `exp` sample is
  `Power(base, ...)` of that point.
- So the model tracks which token and which point each value came from, and
  how many points there are. It does not track their numeric values.

**The binders.**
- Each binder takes the contents of `vars_to_pass` and returns two things: the
  exception that escapes, if any, and the contents afterwards.
- The updates made before an exception are kept, as they are in the caller's
  dictionary.
- `eval` is kept symbolic. `Evaluated(rule, x, v)` is the rule evaluated with
  the iterated variable `x` replaced by the value `v`.
- The iteration order of the plain `dict` `rel_vars` is arbitrary in Python 2.
  It is an input `order`: each key of `rel_vars` once.

**Python 2 details.**
- Whitespace for `strip()` and `split()` is the six ASCII characters space,
  tab, newline, vertical tab, form feed and carriage return.
- An `assert` failure is modelled as its own error value, one per assertion:
  `WrongIndexCount`, `AlreadyBound`, `NoIteratedDependency`.

## Model

| member | source | states |
|---|---|---|
| `PyText.SplitEmptyIffBlank` | src/load_specs.py:68-71 | `split()` gives no fields exactly when `strip()` is empty, so every line that is read has a first field |
| `PyText.SplitKeepsNonSpace` | src/load_specs.py:71 | the fields of `split()` concatenated are exactly the non-whitespace characters of the line, in order |
| `PyText.SplitJoin` | src/load_specs.py:71 | splitting whitespace-free tokens joined by single spaces gives the tokens back |
| `PyText.ContainsAt` | src/load_specs.py:155 | `iter_var in var_rule` holds exactly when the name occurs at some position of the rule |
| `OrderedDicts.OrderedDict.Set` | src/load_specs.py:81-84 | assigning into the `OrderedDict`: the value is replaced, an existing key keeps its place, a new key goes last, and each key stays listed once |
| `LoadSpecs.LinspaceValues` | src/load_specs.py:81 | `linspace(lo, hi, N)` has exactly N points, the k-th being point k of N |
| `LoadSpecs.ExpValues` | src/load_specs.py:84 | `base ** linspace(lo, hi, N)` has exactly N points, the k-th being base to point k |
| `LoadSpecs.IterVarEntry` | src/load_specs.py:75-84 | an `iter_var` line raises only IndexError or ValueError, and succeeds exactly when tokens 4 to 6 (and the base, for `exp`) are present and parse and N is non-negative for `lin`/`exp`; `lin`/`exp` store N samples under the second token, with each sample's formula; any other scaling stores nothing |
| `LoadSpecs.ParseLineSpec` | src/load_specs.py:67-92 | blank lines and lines whose raw first character is `#` define nothing; a line with one field raises IndexError; an unknown keyword defines nothing; an entry is keyed by the second field and goes to the dictionary its keyword names; `iter_var` lines go to `IterVarEntry`; `fixed_var`, `rel_var` and `param` lines succeed exactly when the value field is present and parses, and then define that value |
| `LoadSpecs.StoreOwnTable` | src/load_specs.py:81-90 | an entry writes exactly one key, its name, into exactly its own dictionary; the other three dictionaries are unchanged |
| `LoadSpecs.SkippedLineNoEffect` | src/load_specs.py:67-92 | a line that defines nothing can be removed from any file without changing its outcome |
| `LoadSpecs.IndentedComment` | src/load_specs.py:68-73 | an indented comment whose `#` stands alone is read, not skipped, and changes nothing since `#` is an unknown keyword |
| `LoadSpecs.IndentedOneWordComment` | src/load_specs.py:68-73 | an indented one-word comment is read, not skipped, and raises IndexError |
| `LoadSpecs.ListDict` | src/load_specs.py:97-101 | the result has exactly the four keys `rel_vars`, `fixed_vars`, `params` and `iter_vars`, each holding its dictionary |
| `LoadSpecs.ReadSpecsFile` | src/load_specs.py:62-101 | the loop over the lines returns the first exception a line raises, and otherwise the four dictionaries that `ReadSpecs` yields, packed by `ListDict` |
| `LoadSpecs.ReadSpecsIsStoreAll` | src/load_specs.py:67-92 | reading a file is parsing every line first and then storing the entries in file order; an exception from any line is the outcome |
| `LoadSpecs.StoreFromSnoc` | src/load_specs.py:67-92 | storing one more entry after a sequence of entries is storing it into the dictionaries the sequence yields |
| `LoadSpecs.StoreAllLatest` | src/load_specs.py:75-90 | the last line wins: each dictionary holds a name exactly when some entry defines it there, and holds the value of the last such entry |
| `LoadSpecs.StoreAllIterOrder` | src/load_specs.py:63-84 | the `OrderedDict` lists exactly the iterated variables, each once, ordered by the first line that introduced it; redefinitions keep the position |
| `LoadSpecs.SetKeepsFirstOccurrenceOrder` | src/load_specs.py:81-84 | one more assignment into the `OrderedDict` keeps its keys ordered by first occurrence |
| `LoadSpecs.OrderAfterKnownName` | src/load_specs.py:81-84 | redefining a known iterated variable changes no first occurrence, so the order is kept |
| `LoadSpecs.OrderAfterNewName` | src/load_specs.py:81-84 | a new iterated variable occurs first after all the others, and going last keeps the order |
| `BindVars.PyIndex` | src/load_specs.py:126 | `arr[idx]` exists exactly when -len(arr) <= idx < len(arr), and is then element idx modulo len(arr) |
| `BindVars.BoundKeys` | src/load_specs.py:124-129 | after binding the first n iterated variables, the keys are the old ones and those n: no other key is added |
| `BindVars.BoundSelects` | src/load_specs.py:124-126 | after binding the first n iterated variables, the i-th of them holds the value its sweep index selects from its range |
| `BindVars.BoundKeeps` | src/load_specs.py:124-129 | every key that is not an iterated variable keeps its value |
| `BindVars.FirstOutOfRange` | src/load_specs.py:124-126 | the first iterated variable whose index is out of range, with all earlier ones in range |
| `BindVars.AllInRange` | src/load_specs.py:124-126 | no index is out of range exactly when every index i satisfies -len <= i < len for its range |
| `BindVars.ParseIteratedVars` | src/load_specs.py:118-129 | fails with `WrongIndexCount` and changes nothing unless there is one index per iterated variable; otherwise binds the iterated variables in key order, and succeeds exactly when every index is in range; an index out of range raises IndexError with the earlier ones already bound |
| `BindVars.FirstMatchFromSpec` | src/load_specs.py:154-159 | the inner loop's search from a position on: no match exactly when no later name occurs in the rule, otherwise the first later name that occurs |
| `BindVars.FirstMatchSpec` | src/load_specs.py:154-159 | no match exactly when no iterated variable's name occurs in the rule; otherwise the first one in key order that occurs, and later matches are ignored |
| `BindVars.RelRun` | src/load_specs.py:150-159 | unless something raised, the flag is unassigned exactly when no relative variable has been handled |
| `BindVars.RelRunKeeps` | src/load_specs.py:150-159 | the loop over the relative variables only adds keys: every entry `vars_to_pass` held keeps its value |
| `BindVars.RelRunRaisedStays` | src/load_specs.py:150-159 | once an exception escapes the loop body, later iterations do not change the outcome |
| `BindVars.ParseRelativeVars` | src/load_specs.py:150-168 | the loops with the flag and `break` return the outcome `RelativeOutcome` defines: the first exception raised in the loop, then the flag test after the loop |
| `BindVars.RelRunBinds` | src/load_specs.py:150-159 | with every iterated variable bound and no relative variable bound beforehand, nothing raises; each relative variable whose rule names an iterated variable is bound to its rule evaluated at the first one; the others stay unbound; nothing else changes |
| `BindVars.RelStepBinds` | src/load_specs.py:150-159 | one relative variable not bound beforehand extends those bindings |
| `BindVars.RelRunRaises` | src/load_specs.py:150-152 | a relative variable already in `vars_to_pass` makes the call raise |
| `BindVars.AlreadyBoundRaises` | src/load_specs.py:150-152 | the first relative variable in iteration order that is already bound raises `AlreadyBound` for it |
| `BindVars.RelativeOutcomeIff` | src/load_specs.py:150-164 | as written, with the iterated variables bound: success exactly when there is a relative variable, none is bound already, and the last one's rule names an iterated variable; the bindings are then those of `RelRunBinds` |
| `BindVars.RelRunChecksEach` | src/load_specs.py:153-164 | with the per-variable check, a rule naming no iterated variable makes the call raise |
| `BindVars.CheckedRelativeOutcomeIff` | src/load_specs.py:150-164 | corrected: success exactly when no relative variable is bound already and every rule names an iterated variable; every relative variable is then bound and nothing else changes |
| `BindVars.NoRelativeVarsUnboundFlag` | src/load_specs.py:150-164 | as written, with no relative variable the flag test reads the never-assigned flag and raises, leaving `vars_to_pass` as it was |
| `BindVars.CheckedNoRelativeVars` | src/load_specs.py:150-164 | corrected: with no relative variable the call succeeds and changes nothing |
| `BindVars.UnmatchedRelativeVarSkipped` | src/load_specs.py:153-164 | as written, a relative variable that depends on nothing but is not last is silently left unbound; the corrected call raises for it |

## Left out

- File access, `exit()` and printing (src/load_specs.py:53-60, 92, 94-95, 122, 127, 148, 166) are I/O. The file is given as its sequence of lines, and a missing file is not modelled.
- What `float()` and `int()` accept, and the numeric values of `linspace` and `**`, are floating-point parsing and arithmetic. Acceptance is the `Numerics` parameter, and values are symbolic.
- `var_rule.replace(...)`, the `'%s'` formatting of the value and `eval` (src/load_specs.py:157-158) are foreign expression evaluation. The result is the symbolic `Evaluated(rule, variable, value)`. An exception raised inside `eval` is not modelled.
- The `int(...)` conversion of each sweep index (src/load_specs.py:125) needs the caller to pass the indices already converted, so the indices are integers.
- The keys of a Python 2 `dict` come out in an arbitrary order, so the iteration order of `rel_vars` is an input to `ParseRelativeVars`.
- NumPy's indexing of the sampled range by anything but a plain integer is not modelled.
- The simulations, decoders, scripts and plotting are floating-point numerics, randomness and orchestration. These are `src/four_state_receptor_CS.py`, `src/decode_CS.py` and everything under `scripts/`.
- `local_methods` and its `def_data_dir` are not part of this model.
- The job-array submission script that splits a scheduler index into sweep indices is not part of this model. The scripts here receive the indices already split.

## Findings

| source | as written | input that shows it | evidently intended | confidence | as-written member | corrected member |
|---|---|---|---|---|---|---|
| src/load_specs.py:163 | the dependency `assert` on `flag` sits after the loop over `rel_vars`, so only the last relative variable is checked | iterated variable `x`; `rel_vars` with `a` = `2` and then `b` = `3*x` in iteration order: the call succeeds and `a` is never bound | every relative variable must depend on an iterated variable | high (not executed) | `BindVars.UnmatchedRelativeVarSkipped` | `BindVars.CheckedRelativeOutcomeIff` |
| src/load_specs.py:153-163 | `flag` is assigned only inside the loop, so with no relative variable the `assert` reads an unbound local and raises UnboundLocalError | a specifications file without `rel_var` lines, whose empty `rel_vars` scripts/CS_run.py:48 passes on | no relative variable is no error, and `vars_to_pass` is returned as it was | high (not executed) | `BindVars.NoRelativeVarsUnboundFlag` | `BindVars.CheckedNoRelativeVars` |

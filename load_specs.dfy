/** `read_specs_file` of src/load_specs.py: reads a run-specifications file,
    one line at a time, into four dictionaries: iterated variables (an
    OrderedDict of sampled ranges), fixed variables, relative variables (rules
    given as text) and parameters to override. */
module LoadSpecs {
  import opened Wrappers
  import opened PyText
  import opened OrderedDicts

  /** Floating-point values, kept symbolic: `float(token)`, the k-th point of
      `linspace(lo, hi, num)`, and `base ** exponent`. */
  datatype Float =
    | Literal(token: string)
    | LinspacePoint(lo: Float, hi: Float, num: nat, k: nat)
    | Power(base: Float, exponent: Float)

  /** The exceptions that reading a specifications file or binding one point
      of the sweep can raise. */
  datatype Error =
    | IndexError                                      // a missing token, or a sweep index out of range
    | ValueError                                      // float() or int() rejects a token, or a negative sample count
    | KeyError(key: string)                           // a dictionary lookup of a missing key
    | WrongIndexCount(expected: nat, supplied: nat)   // one sweep index per iterated variable is required
    | AlreadyBound(relVar: string)                    // a relative variable that is already bound
    | NoIteratedDependency(relVar: string, rule: string) // a rule that names no iterated variable
    | UnboundFlag                                     // the dependency flag is read before any assignment

  /** Which tokens Python's `float()` accepts, and what `int()` makes of a token. */
  datatype Numerics = Numerics(isFloat: string -> bool, toInt: string -> Option<int>)

  /** What one specifications line defines, by the dictionary it belongs to. */
  datatype Payload =
    | Rule(rule: string)            // rel_var:   rel_vars[name] = keys[2]
    | FixedValue(value: Float)      // fixed_var: fixed_vars[name] = float(keys[2])
    | ParamValue(n: int)            // param:     params[name] = int(keys[2])
    | Samples(values: seq<Float>)   // iter_var:  iter_vars[name] = the sampled range

  datatype Entry = Entry(name: string, payload: Payload)

  /** The four dictionaries. */
  datatype Kind = RelKind | FixedKind | ParamKind | IterKind

  function KindOf(p: Payload): Kind {
    match p
    case Rule(_) => RelKind
    case FixedValue(_) => FixedKind
    case ParamValue(_) => ParamKind
    case Samples(_) => IterKind
  }

  /** The first token of the lines that write into each dictionary. */
  function Keyword(k: Kind): string {
    match k
    case RelKind => "rel_var"
    case FixedKind => "fixed_var"
    case ParamKind => "param"
    case IterKind => "iter_var"
  }

  /** The four dictionaries that `read_specs_file` fills. */
  datatype Specs = Specs(
    relVars: map<string, string>,
    fixedVars: map<string, Float>,
    params: map<string, int>,
    iterVars: OrderedDict<string, seq<Float>>)

  ghost predicate Valid(s: Specs) {
    s.iterVars.Valid()
  }

  function EmptySpecs(): (s: Specs)
    ensures Valid(s)
  {
    Specs(map[], map[], map[], EmptyDict())
  }

  /** One of the four dictionaries of s, with its values seen as payloads. */
  function Table(s: Specs, k: Kind): map<string, Payload> {
    match k
    case RelKind => RelTable(s.relVars)
    case FixedKind => FixedTable(s.fixedVars)
    case ParamKind => ParamTable(s.params)
    case IterKind => IterTable(s.iterVars.entries)
  }

  function RelTable(m: map<string, string>): map<string, Payload> {
    map n | n in m :: Rule(m[n])
  }

  function FixedTable(m: map<string, Float>): map<string, Payload> {
    map n | n in m :: FixedValue(m[n])
  }

  function ParamTable(m: map<string, int>): map<string, Payload> {
    map n | n in m :: ParamValue(m[n])
  }

  function IterTable(m: map<string, seq<Float>>): map<string, Payload> {
    map n | n in m :: Samples(m[n])
  }

  /** `sp.linspace(lo, hi, n)` for n >= 0. */
  function LinspaceValues(lo: Float, hi: Float, n: nat): (vs: seq<Float>)
    ensures |vs| == n
    ensures forall k :: 0 <= k < n ==> vs[k] == LinspacePoint(lo, hi, n, k)
  {
    seq(n, k requires 0 <= k => LinspacePoint(lo, hi, n, k))
  }

  /** `base ** sp.linspace(lo, hi, n)` for n >= 0, taken elementwise. */
  function ExpValues(base: Float, lo: Float, hi: Float, n: nat): (vs: seq<Float>)
    ensures |vs| == n
    ensures forall k :: 0 <= k < n ==> vs[k] == Power(base, LinspacePoint(lo, hi, n, k))
  {
    seq(n, k requires 0 <= k => Power(base, LinspacePoint(lo, hi, n, k)))
  }

  /** An `iter_var` line, tokens `keys`: scaling keys[2], range keys[3]..keys[4],
      keys[5] points and, for scaling `exp`, the base keys[6]. The tokens are
      read in that order, so the first missing or malformed one decides the
      error. A scaling other than `lin` and `exp` defines nothing. */
  function IterVarEntry(num: Numerics, keys: seq<string>): (r: Result<Option<Entry>, Error>)
    requires |keys| >= 2
    ensures r.Err? ==> r.error == IndexError || r.error == ValueError
    ensures r.Ok? <==>
      && |keys| >= 6 && num.isFloat(keys[3]) && num.isFloat(keys[4]) && num.toInt(keys[5]).Some?
      && (keys[2] == "lin" ==> num.toInt(keys[5]).value >= 0)
      && (keys[2] == "exp" ==> |keys| >= 7 && num.isFloat(keys[6]) && num.toInt(keys[5]).value >= 0)
    ensures r.Ok? && keys[2] != "lin" && keys[2] != "exp" ==> r.value == None
    ensures r.Ok? && (keys[2] == "lin" || keys[2] == "exp") ==>
      && r.value.Some? && r.value.value.name == keys[1] && r.value.value.payload.Samples?
      && |r.value.value.payload.values| == num.toInt(keys[5]).value
    ensures r.Ok? && keys[2] == "lin" ==>
      forall k :: 0 <= k < |r.value.value.payload.values| ==>
        r.value.value.payload.values[k] ==
          LinspacePoint(Literal(keys[3]), Literal(keys[4]), |r.value.value.payload.values|, k)
    ensures r.Ok? && keys[2] == "exp" ==>
      forall k :: 0 <= k < |r.value.value.payload.values| ==>
        r.value.value.payload.values[k] ==
          Power(Literal(keys[6]), LinspacePoint(Literal(keys[3]), Literal(keys[4]), |r.value.value.payload.values|, k))
  {
    if |keys| < 4 then Err(IndexError)
    else if !num.isFloat(keys[3]) then Err(ValueError)
    else if |keys| < 5 then Err(IndexError)
    else if !num.isFloat(keys[4]) then Err(ValueError)
    else if |keys| < 6 then Err(IndexError)
    else match num.toInt(keys[5])
      case None => Err(ValueError)
      case Some(nn) =>
        var lo, hi := Literal(keys[3]), Literal(keys[4]);
        if keys[2] == "lin" then
          if nn < 0 then Err(ValueError)
          else Ok(Some(Entry(keys[1], Samples(LinspaceValues(lo, hi, nn)))))
        else if keys[2] == "exp" then
          if |keys| < 7 then Err(IndexError)
          else if !num.isFloat(keys[6]) then Err(ValueError)
          else if nn < 0 then Err(ValueError)
          else Ok(Some(Entry(keys[1], Samples(ExpValues(Literal(keys[6]), lo, hi, nn)))))
        else Ok(None)
  }

  /** A line is read when `strip()` leaves something and the raw line does not
      start with `#`. */
  predicate IsRead(line: string) {
    HasNonSpace(line) && !StartsWith(line, "#")
  }

  /** What one line of the file defines: nothing (Ok(None)), one entry, or the
      exception the line raises. */
  function ParseLine(num: Numerics, line: string): Result<Option<Entry>, Error>
  {
    if !HasNonSpace(line) then Ok(None)
    else if StartsWith(line, "#") then Ok(None)
    else
      var keys := Split(line);
      if |keys| < 2 then Err(IndexError)
      else if keys[0] == "iter_var" then IterVarEntry(num, keys)
      else if keys[0] == "fixed_var" then
        if |keys| < 3 then Err(IndexError)
        else if num.isFloat(keys[2]) then Ok(Some(Entry(keys[1], FixedValue(Literal(keys[2])))))
        else Err(ValueError)
      else if keys[0] == "rel_var" then
        if |keys| < 3 then Err(IndexError)
        else Ok(Some(Entry(keys[1], Rule(keys[2]))))
      else if keys[0] == "param" then
        if |keys| < 3 then Err(IndexError)
        else match num.toInt(keys[2])
          case None => Err(ValueError)
          case Some(n) => Ok(Some(Entry(keys[1], ParamValue(n))))
      else Ok(None)
  }

  /** What each kind of line defines. */
  lemma ParseLineSpec(num: Numerics, line: string)
    // blank lines and lines whose first character is '#' define nothing
    ensures !IsRead(line) ==> ParseLine(num, line) == Ok(None)
    // every other line has a first token; a line without a second one raises
    ensures IsRead(line) ==> |Split(line)| >= 1 && (|Split(line)| < 2 ==> ParseLine(num, line) == Err(IndexError))
    // an unknown first token defines nothing
    ensures (&& IsRead(line) && |Split(line)| >= 2
             && Split(line)[0] != "iter_var" && Split(line)[0] != "fixed_var"
             && Split(line)[0] != "rel_var" && Split(line)[0] != "param") ==> ParseLine(num, line) == Ok(None)
    // an entry is keyed by the second token and goes to the dictionary the first token names
    ensures ParseLine(num, line).Ok? && ParseLine(num, line).value.Some? ==>
      && IsRead(line) && |Split(line)| >= 2
      && ParseLine(num, line).value.value.name == Split(line)[1]
      && Split(line)[0] == Keyword(KindOf(ParseLine(num, line).value.value.payload))
    // an iter_var line is read by IterVarEntry
    ensures IsRead(line) && |Split(line)| >= 2 && Split(line)[0] == "iter_var" ==>
      ParseLine(num, line) == IterVarEntry(num, Split(line))
    // fixed_var, rel_var and param lines succeed exactly when their value token is there and parses
    ensures IsRead(line) && |Split(line)| >= 2 && Split(line)[0] == "fixed_var" ==>
      (ParseLine(num, line).Ok? <==> |Split(line)| >= 3 && num.isFloat(Split(line)[2])) &&
      (ParseLine(num, line).Ok? ==> ParseLine(num, line).value == Some(Entry(Split(line)[1], FixedValue(Literal(Split(line)[2])))))
    ensures IsRead(line) && |Split(line)| >= 2 && Split(line)[0] == "rel_var" ==>
      (ParseLine(num, line).Ok? <==> |Split(line)| >= 3) &&
      (ParseLine(num, line).Ok? ==> ParseLine(num, line).value == Some(Entry(Split(line)[1], Rule(Split(line)[2]))))
    ensures IsRead(line) && |Split(line)| >= 2 && Split(line)[0] == "param" ==>
      (ParseLine(num, line).Ok? <==> |Split(line)| >= 3 && num.toInt(Split(line)[2]).Some?) &&
      (ParseLine(num, line).Ok? ==> ParseLine(num, line).value == Some(Entry(Split(line)[1], ParamValue(num.toInt(Split(line)[2]).value))))
  {
    SplitEmptyIffBlank(line);
  }

  /** Item assignment of one entry into the dictionary it belongs to. */
  function Store(s: Specs, e: Entry): (r: Specs)
    requires Valid(s)
    ensures Valid(r)
    ensures !e.payload.Samples? ==> r.iterVars == s.iterVars
  {
    match e.payload
    case Rule(rule) => s.(relVars := s.relVars[e.name := rule])
    case FixedValue(f) => s.(fixedVars := s.fixedVars[e.name := f])
    case ParamValue(n) => s.(params := s.params[e.name := n])
    case Samples(vs) => s.(iterVars := s.iterVars.Set(e.name, vs))
  }

  /** The effect of one line on the four dictionaries. */
  function ApplyLine(num: Numerics, s: Specs, line: string): (r: Result<Specs, Error>)
    requires Valid(s)
    ensures r.Ok? ==> Valid(r.value)
  {
    match ParseLine(num, line)
    case Err(e) => Err(e)
    case Ok(None) => Ok(s)
    case Ok(Some(e)) => Ok(Store(s, e))
  }

  /** The lines applied in file order from s; the first line that raises ends the reading. */
  function ReadFrom(num: Numerics, s: Specs, lines: seq<string>): (r: Result<Specs, Error>)
    requires Valid(s)
    ensures r.Ok? ==> Valid(r.value)
    decreases |lines|
  {
    if lines == [] then Ok(s)
    else match ApplyLine(num, s, lines[0])
      case Err(e) => Err(e)
      case Ok(s') => ReadFrom(num, s', lines[1..])
  }

  /** The four dictionaries a whole file yields, starting from empty ones. */
  function ReadSpecs(num: Numerics, lines: seq<string>): Result<Specs, Error> {
    ReadFrom(num, EmptySpecs(), lines)
  }

  /** The value `read_specs_file` returns: a dictionary of the four dictionaries. */
  datatype Dict =
    | RelVars(relVars: map<string, string>)
    | FixedVars(fixedVars: map<string, Float>)
    | Params(params: map<string, int>)
    | IterVars(iterVars: OrderedDict<string, seq<Float>>)

  function ListDict(s: Specs): (d: map<string, Dict>)
    ensures d.Keys == {"rel_vars", "fixed_vars", "params", "iter_vars"}
    ensures d["rel_vars"] == RelVars(s.relVars) && d["fixed_vars"] == FixedVars(s.fixedVars)
    ensures d["params"] == Params(s.params) && d["iter_vars"] == IterVars(s.iterVars)
  {
    map["rel_vars" := RelVars(s.relVars), "fixed_vars" := FixedVars(s.fixedVars),
        "params" := Params(s.params), "iter_vars" := IterVars(s.iterVars)]
  }

  /** `read_specs_file` on the lines of the file: the loop fills four local
      dictionaries in place and stops at the first line that raises. */
  method ReadSpecsFile(num: Numerics, lines: seq<string>) returns (r: Result<map<string, Dict>, Error>)
    ensures ReadSpecs(num, lines).Err? ==> r == Err(ReadSpecs(num, lines).error)
    ensures ReadSpecs(num, lines).Ok? ==> r == Ok(ListDict(ReadSpecs(num, lines).value))
  {
    var fixedVars: map<string, Float> := map[];
    var iterVars: OrderedDict<string, seq<Float>> := EmptyDict();
    var relVars: map<string, string> := map[];
    var params: map<string, int> := map[];
    var i := 0;
    while i < |lines|
      invariant 0 <= i <= |lines|
      invariant iterVars.Valid()
      invariant ReadSpecs(num, lines) == ReadFrom(num, Specs(relVars, fixedVars, params, iterVars), lines[i..])
    {
      var line := lines[i];
      assert lines[i..][0] == line && lines[i..][1..] == lines[i + 1..];
      if HasNonSpace(line) {
        if !StartsWith(line, "#") {
          var keys := Split(line);
          if |keys| < 2 {
            return Err(IndexError);
          }
          var varType, varName := keys[0], keys[1];
          if varType == "iter_var" {
            if |keys| < 3 {
              return Err(IndexError);
            }
            var scaling := keys[2];
            if |keys| < 4 {
              return Err(IndexError);
            }
            if !num.isFloat(keys[3]) {
              return Err(ValueError);
            }
            var lo := Literal(keys[3]);
            if |keys| < 5 {
              return Err(IndexError);
            }
            if !num.isFloat(keys[4]) {
              return Err(ValueError);
            }
            var hi := Literal(keys[4]);
            if |keys| < 6 {
              return Err(IndexError);
            }
            var nn := num.toInt(keys[5]);
            if nn.None? {
              return Err(ValueError);
            }
            if scaling == "lin" {
              if nn.value < 0 {
                return Err(ValueError);
              }
              iterVars := iterVars.Set(varName, LinspaceValues(lo, hi, nn.value));
            } else if scaling == "exp" {
              if |keys| < 7 {
                return Err(IndexError);
              }
              if !num.isFloat(keys[6]) {
                return Err(ValueError);
              }
              var base := Literal(keys[6]);
              if nn.value < 0 {
                return Err(ValueError);
              }
              iterVars := iterVars.Set(varName, ExpValues(base, lo, hi, nn.value));
            }
          } else if varType == "fixed_var" {
            if |keys| < 3 {
              return Err(IndexError);
            }
            if !num.isFloat(keys[2]) {
              return Err(ValueError);
            }
            fixedVars := fixedVars[varName := Literal(keys[2])];
          } else if varType == "rel_var" {
            if |keys| < 3 {
              return Err(IndexError);
            }
            relVars := relVars[varName := keys[2]];
          } else if varType == "param" {
            if |keys| < 3 {
              return Err(IndexError);
            }
            var n := num.toInt(keys[2]);
            if n.None? {
              return Err(ValueError);
            }
            params := params[varName := n.value];
          }
        }
      }
      i := i + 1;
    }
    r := Ok(ListDict(Specs(relVars, fixedVars, params, iterVars)));
  }

  // ---------------------------------------------------------------------------
  // Properties of one line

  /** An entry writes exactly one key, its name, into exactly its own
      dictionary; the other three dictionaries are untouched. */
  lemma StoreOwnTable(s: Specs, e: Entry)
    requires Valid(s)
    ensures Table(Store(s, e), KindOf(e.payload)) == Table(s, KindOf(e.payload))[e.name := e.payload]
    ensures forall k :: k != KindOf(e.payload) ==> Table(Store(s, e), k) == Table(s, k)
  {
    var r := Store(s, e);
    match e.payload {
      case Rule(rule) => RelTableSet(s.relVars, e.name, rule);
      case FixedValue(f) => FixedTableSet(s.fixedVars, e.name, f);
      case ParamValue(n) => ParamTableSet(s.params, e.name, n);
      case Samples(vs) => IterTableSet(s.iterVars.entries, e.name, vs);
    }
    forall k | k != KindOf(e.payload)
      ensures Table(r, k) == Table(s, k)
    {
      match k {
        case RelKind => assert r.relVars == s.relVars;
        case FixedKind => assert r.fixedVars == s.fixedVars;
        case ParamKind => assert r.params == s.params;
        case IterKind => assert r.iterVars == s.iterVars;
      }
    }
  }

  lemma RelTableSet(m: map<string, string>, n: string, v: string)
    ensures RelTable(m[n := v]) == RelTable(m)[n := Rule(v)]
  {
  }

  lemma FixedTableSet(m: map<string, Float>, n: string, v: Float)
    ensures FixedTable(m[n := v]) == FixedTable(m)[n := FixedValue(v)]
  {
  }

  lemma ParamTableSet(m: map<string, int>, n: string, v: int)
    ensures ParamTable(m[n := v]) == ParamTable(m)[n := ParamValue(v)]
  {
  }

  lemma IterTableSet(m: map<string, seq<Float>>, n: string, v: seq<Float>)
    ensures IterTable(m[n := v]) == IterTable(m)[n := Samples(v)]
  {
  }

  /** A line that defines nothing (blank, comment, unknown keyword, or an
      `iter_var` line with another scaling) can be taken out of any file
      without changing what the file yields. */
  lemma {:induction false} SkippedLineNoEffect(num: Numerics, s: Specs, before: seq<string>, line: string, after: seq<string>)
    requires Valid(s)
    requires ParseLine(num, line) == Ok(None)
    ensures ReadFrom(num, s, before + [line] + after) == ReadFrom(num, s, before + after)
    decreases |before|
  {
    if before == [] {
      assert before + [line] + after == [line] + after;
      assert ([line] + after)[1..] == after;
      assert before + after == after;
    } else {
      var whole := before + [line] + after;
      assert whole[0] == before[0] && whole[1..] == before[1..] + [line] + after;
      assert (before + after)[0] == before[0] && (before + after)[1..] == before[1..] + after;
      match ApplyLine(num, s, before[0])
      case Err(_) =>
      case Ok(s') => SkippedLineNoEffect(num, s', before[1..], line, after);
    }
  }

  /** An indented comment is not skipped, since the `#` test looks at the raw
      line. When the `#` stands alone its first token `#` is an unknown
      keyword, so the line defines nothing. */
  lemma IndentedComment(num: Numerics, s: Specs, indent: string, words: seq<string>)
    requires Valid(s)
    requires indent != [] && AllSpace(indent)
    requires |words| >= 1 && forall k :: 0 <= k < |words| ==> IsToken(words[k])
    ensures ApplyLine(num, s, indent + Join(["#"] + words)) == Ok(s)
  {
    var line := indent + Join(["#"] + words);
    assert IsToken("#");
    assert forall k :: 0 <= k < |["#"] + words| ==> IsToken((["#"] + words)[k]);
    SplitSpaceThen(indent, Join(["#"] + words));
    SplitJoin(["#"] + words);
    assert line[0] == indent[0] && IsSpace(line[0]);
    assert Split(line) == ["#"] + words;
    ParseLineSpec(num, line);
  }

  /** An indented comment of one word is not skipped either, and it raises
      IndexError: the line has no second token. */
  lemma IndentedOneWordComment(num: Numerics, s: Specs, indent: string, word: string)
    requires Valid(s)
    requires indent != [] && AllSpace(indent)
    requires IsToken(word) && word[0] == '#'
    ensures ApplyLine(num, s, indent + word) == Err(IndexError)
  {
    var line := indent + word;
    SplitSpaceThen(indent, word);
    SplitJoin([word]);
    assert Join([word]) == word;
    assert line[0] == indent[0] && IsSpace(line[0]);
    assert Split(line) == [word];
    SplitEmptyIffBlank(line);
    ParseLineSpec(num, line);
  }

  // ---------------------------------------------------------------------------
  // The whole file: what each line defines, then applied in order

  /** The entries the lines define, in file order, or the first exception. */
  function ParseLines(num: Numerics, lines: seq<string>): Result<seq<Entry>, Error>
    decreases |lines|
  {
    if lines == [] then Ok([])
    else match ParseLine(num, lines[0])
      case Err(e) => Err(e)
      case Ok(o) =>
        match ParseLines(num, lines[1..])
        case Err(e) => Err(e)
        case Ok(es) => Ok((if o.Some? then [o.value] else []) + es)
  }

  function StoreFrom(s: Specs, es: seq<Entry>): (r: Specs)
    requires Valid(s)
    ensures Valid(r)
    decreases |es|
  {
    if es == [] then s else StoreFrom(Store(s, es[0]), es[1..])
  }

  function StoreAll(es: seq<Entry>): (r: Specs)
    ensures Valid(r)
  {
    StoreFrom(EmptySpecs(), es)
  }

  /** Reading a file is first parsing every line, then storing the entries in order. */
  lemma {:induction false} ReadFromParseLines(num: Numerics, s: Specs, lines: seq<string>)
    requires Valid(s)
    ensures ReadFrom(num, s, lines) ==
      match ParseLines(num, lines)
      case Err(e) => Err(e)
      case Ok(es) => Ok(StoreFrom(s, es))
    decreases |lines|
  {
    if lines != [] {
      match ParseLine(num, lines[0]) {
        case Err(_) =>
        case Ok(None) =>
          ReadFromParseLines(num, s, lines[1..]);
          if ParseLines(num, lines[1..]).Ok? {
            assert [] + ParseLines(num, lines[1..]).value == ParseLines(num, lines[1..]).value;
          }
        case Ok(Some(e)) =>
          ReadFromParseLines(num, Store(s, e), lines[1..]);
          if ParseLines(num, lines[1..]).Ok? {
            var es := ParseLines(num, lines[1..]).value;
            assert ([e] + es)[0] == e && ([e] + es)[1..] == es;
          }
      }
    }
  }

  lemma ReadSpecsIsStoreAll(num: Numerics, lines: seq<string>)
    ensures ReadSpecs(num, lines) ==
      match ParseLines(num, lines)
      case Err(e) => Err(e)
      case Ok(es) => Ok(StoreAll(es))
  {
    ReadFromParseLines(num, EmptySpecs(), lines);
  }

  lemma {:induction false} StoreFromSnoc(s: Specs, es: seq<Entry>, e: Entry)
    requires Valid(s)
    ensures StoreFrom(s, es + [e]) == Store(StoreFrom(s, es), e)
    decreases |es|
  {
    if es == [] {
      assert [] + [e] == [e];
      assert [e][1..] == [];
    } else {
      assert (es + [e])[0] == es[0] && (es + [e])[1..] == es[1..] + [e];
      StoreFromSnoc(Store(s, es[0]), es[1..], e);
    }
  }

  /** What the last entry for `name` into dictionary `kind` defines, if any. */
  function Latest(es: seq<Entry>, kind: Kind, name: string): Option<Payload>
    decreases |es|
  {
    if es == [] then None
    else
      var e := es[|es| - 1];
      if e.name == name && KindOf(e.payload) == kind then Some(e.payload)
      else Latest(es[..|es| - 1], kind, name)
  }

  /** The last line wins: each dictionary holds a name exactly when some
      entry defines it for that dictionary, and then holds what the last such
      entry defines. */
  lemma {:induction false} StoreAllLatest(es: seq<Entry>, kind: Kind, name: string)
    ensures name in Table(StoreAll(es), kind) <==> Latest(es, kind, name).Some?
    ensures name in Table(StoreAll(es), kind) ==> Table(StoreAll(es), kind)[name] == Latest(es, kind, name).value
    decreases |es|
  {
    if es == [] {
      assert Table(EmptySpecs(), kind) == map[];
    } else {
      var pre, e := es[..|es| - 1], es[|es| - 1];
      assert es == pre + [e];
      StoreFromSnoc(EmptySpecs(), pre, e);
      var s := StoreAll(pre);
      assert StoreAll(es) == Store(s, e);
      StoreOwnTable(s, e);
      StoreAllLatest(pre, kind, name);
      if KindOf(e.payload) == kind {
        assert Table(StoreAll(es), kind) == Table(s, kind)[e.name := e.payload];
      } else {
        assert Table(StoreAll(es), kind) == Table(s, kind);
        assert Latest(es, kind, name) == Latest(pre, kind, name);
      }
    }
  }

  /** The names of the `iter_var` entries, in file order. */
  function IterNames(es: seq<Entry>): seq<string>
    decreases |es|
  {
    if es == [] then []
    else
      var e := es[|es| - 1];
      IterNames(es[..|es| - 1]) + (if e.payload.Samples? then [e.name] else [])
  }

  /** Position of the first occurrence of x in xs. */
  function FirstIndex(xs: seq<string>, x: string): (i: nat)
    requires x in xs
    ensures i < |xs| && xs[i] == x
    ensures forall j :: 0 <= j < i ==> xs[j] != x
  {
    if xs[0] == x then 0 else 1 + FirstIndex(xs[1..], x)
  }

  lemma {:induction false} FirstIndexAppend(xs: seq<string>, y: string, x: string)
    requires x in xs + [y]
    ensures x in xs ==> FirstIndex(xs + [y], x) == FirstIndex(xs, x)
    ensures x !in xs ==> FirstIndex(xs + [y], x) == |xs|
  {
    var i := FirstIndex(xs + [y], x);
    if x in xs {
      var j := FirstIndex(xs, x);
      assert (xs + [y])[j] == x;
      assert i <= j;
      assert xs[i] == x;
    } else {
      assert forall j :: 0 <= j < |xs| ==> (xs + [y])[j] != x;
      assert (xs + [y])[|xs|] == y;
    }
  }

  /** keys lists exactly the names in names, ordered by where each first occurs. */
  ghost predicate FirstOccurrenceOrder(keys: seq<string>, names: seq<string>) {
    && (forall n :: n in keys <==> n in names)
    && (forall i, j :: 0 <= i < j < |keys| ==> FirstIndex(names, keys[i]) < FirstIndex(names, keys[j]))
  }

  /** Assigning an iterated variable keeps the order by first occurrence. */
  lemma SetKeepsFirstOccurrenceOrder(d: OrderedDict<string, seq<Float>>, names: seq<string>, x: string, v: seq<Float>)
    requires d.Valid() && FirstOccurrenceOrder(d.keys, names)
    ensures FirstOccurrenceOrder(d.Set(x, v).keys, names + [x])
  {
    forall n | n in names
      ensures FirstIndex(names + [x], n) == FirstIndex(names, n)
    {
      FirstIndexAppend(names, x, n);
    }
    if x in d.entries {
      assert x in d.keys;
      OrderAfterKnownName(d.keys, names, x);
    } else {
      assert x !in d.keys;
      FirstIndexAppend(names, x, x);
      OrderAfterNewName(d.keys, names, x);
    }
  }

  /** A name seen before changes no first occurrence. */
  lemma OrderAfterKnownName(keys: seq<string>, names: seq<string>, x: string)
    requires FirstOccurrenceOrder(keys, names) && x in keys
    requires forall n :: n in names ==> FirstIndex(names + [x], n) == FirstIndex(names, n)
    ensures FirstOccurrenceOrder(keys, names + [x])
  {
    forall i, j | 0 <= i < j < |keys|
      ensures FirstIndex(names + [x], keys[i]) < FirstIndex(names + [x], keys[j])
    {
      assert keys[i] in names && keys[j] in names;
    }
  }

  /** A new name occurs first after all the others, and goes last. */
  lemma OrderAfterNewName(keys: seq<string>, names: seq<string>, x: string)
    requires FirstOccurrenceOrder(keys, names) && x !in keys
    requires forall n :: n in names ==> FirstIndex(names + [x], n) == FirstIndex(names, n)
    requires FirstIndex(names + [x], x) == |names|
    ensures FirstOccurrenceOrder(keys + [x], names + [x])
  {
    var keys' := keys + [x];
    forall i, j | 0 <= i < j < |keys'|
      ensures FirstIndex(names + [x], keys'[i]) < FirstIndex(names + [x], keys'[j])
    {
      assert keys'[i] == keys[i] && keys[i] in names;
      if j < |keys| {
        assert keys'[j] == keys[j];
      }
    }
  }

  /** The OrderedDict lists the iterated variables by the first line that
      introduced each one: exactly the names of the `iter_var` entries, each
      once, ordered by their first occurrence. */
  lemma {:induction false} StoreAllIterOrder(es: seq<Entry>)
    ensures FirstOccurrenceOrder(StoreAll(es).iterVars.keys, IterNames(es))
    decreases |es|
  {
    if es != [] {
      var pre, e := es[..|es| - 1], es[|es| - 1];
      assert es == pre + [e];
      StoreFromSnoc(EmptySpecs(), pre, e);
      StoreAllIterOrder(pre);
      var d := StoreAll(pre).iterVars;
      if e.payload.Samples? {
        assert IterNames(es) == IterNames(pre) + [e.name];
        SetKeepsFirstOccurrenceOrder(d, IterNames(pre), e.name, e.payload.values);
      } else {
        assert IterNames(es) == IterNames(pre) + [] == IterNames(pre);
        assert StoreAll(es) == Store(StoreAll(pre), e);
        assert StoreAll(es).iterVars == d;
      }
    }
  }
}

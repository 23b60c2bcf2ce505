/** The workflow-definition parser: from a decoded CI workflow it derives the
    trigger names and the full list of concrete job names, which later become
    the required status checks of a branch protection.

    Go map iteration order (jobs, matrix keys, object fields, trigger keys) is
    not fixed; here every map is a sequence in the order the iteration visited
    it, and the properties proved hold for every such order. */
module WorkflowParser {
  import opened Wrappers
  import opened MatrixValues
  import opened Placeholder

  /** One matrix key with its values, in the order the YAML lists them. */
  datatype Dimension = Dimension(key: string, values: seq<MatrixValue>)

  datatype Strategy = Strategy(matrix: seq<Dimension>)

  /** A job of the `jobs:` map: its key, its optional `name:` and its optional
      `strategy:`. */
  datatype Job = Job(key: string, name: Option<string>, strategy: Option<Strategy>)

  /** The decoded `on:` field: a map (its keys), a list (its entries), or any
      other shape. */
  datatype TriggerSpec =
    | TriggerMap(keys: seq<string>)
    | TriggerList(entries: seq<string>)
    | TriggerOther

  datatype RawWorkflow = RawWorkflow(name: string, on: TriggerSpec, jobs: seq<Job>)

  /** The outcome of YAML decoding, which is not part of this model. */
  datatype Document = Decoded(raw: RawWorkflow) | Undecodable(reason: string)

  /** The parsed workflow definition. */
  datatype Workflow = Workflow(name: string, triggers: seq<string>, jobNames: seq<string>)

  datatype ParseError =
    | DecodeFailed(reason: string)
    | UnsupportedTrigger(workflowName: string)
    | MultiDimensional
    | ObjectParameters
      /** The panic of template mode on a value that is neither a string nor a map. */
    | UnsupportedValueType(typeName: string)

  const Remedy: string :=
    "Please add a name field to the job that combines the matrix parameters into a more readable name. "
    + "For example \"Build with Go ${{matrix.go}} and Exasol ${{ matrix.db }}\""

  function Message(e: ParseError): string {
    match e
    case DecodeFailed(reason) => reason
    case UnsupportedTrigger(name) =>
      "the GitHub workflow '" + name + "' has a unimplemented trigger definition style"
    case MultiDimensional =>
      "multi dimensional matrix github-action jobs with no explicit name are not supported. " + Remedy
    case ObjectParameters =>
      "matrix github-action jobs with object parameters and no job name are not supported. " + Remedy
    case UnsupportedValueType(typeName) => "unsupported type " + typeName
  }

  /** `reflect.TypeOf` of a decoded scalar, as the panic message prints it. */
  function TypeName(v: Scalar): string {
    match v
    case Str(_) => "string"
    case Int(_) => "int"
    case Bool(_) => "bool"
    case Float(_) => "float64"
    case Null => "<nil>"
  }

  // ---------------------------------------------------------------------------
  // Trigger extraction

  function Triggers(raw: RawWorkflow): (r: Result<seq<string>, ParseError>)
    ensures r.Ok? <==> !raw.on.TriggerOther?
    ensures raw.on.TriggerMap? ==> r == Ok(raw.on.keys)
    ensures raw.on.TriggerList? ==> r == Ok(raw.on.entries)
    ensures r.Err? ==> r.error == UnsupportedTrigger(raw.name)
  {
    match raw.on
    case TriggerMap(keys) => Ok(keys)
    case TriggerList(entries) => Ok(entries)
    case TriggerOther => Err(UnsupportedTrigger(raw.name))
  }

  // ---------------------------------------------------------------------------
  // Base name and expansion mode

  /** The explicit `name:` of the job, or else its key. */
  function BaseName(job: Job): string {
    match job.name
    case Some(n) => n
    case None => job.key
  }

  predicate HasMatrix(job: Job) {
    job.strategy.Some? && |job.strategy.value.matrix| != 0
  }

  /** The name contains `${{` somewhere (`strings.Contains`), which selects
      template mode. */
  predicate IsTemplate(name: string) {
    |name| > 0 && (IsPrefix(Opening, name) || IsTemplate(name[1..]))
  }

  lemma {:induction false} TemplateFrom(name: string, i: nat)
    requires i <= |name| && IsTemplate(name[i..])
    ensures IsTemplate(name)
    decreases i
  {
    if i > 0 {
      assert name[i - 1..][1..] == name[i..];
      TemplateFrom(name, i - 1);
    }
  }

  /** Any placeholder the substitution could fill also selects template mode. */
  lemma PlaceholderMeansTemplate(name: string, key: string)
    ensures HasPlaceholder(name, key) ==> IsTemplate(name)
  {
    if HasPlaceholder(name, key) {
      var i :| 0 <= i < |name| && MatchLen(name[i..], key).Some?;
      TemplateFrom(name, i);
    }
  }

  // ---------------------------------------------------------------------------
  // Template mode

  /** The values template mode can substitute: strings and maps. */
  predicate Substitutable(v: MatrixValue) {
    v.Object? || v.scalar.Str?
  }

  /** Substitutes every field of a map value under the field's own name. */
  function SubstituteFields(name: string, fields: seq<Field>): string
    decreases |fields|
  {
    if |fields| == 0 then name
    else SubstituteFields(ReplaceAll(name, fields[0].name, Stringify(fields[0].value)), fields[1..])
  }

  /** The name after substituting one matrix value for `key`. A string value
      replaces the placeholders of `key`; a map value replaces the placeholders
      of its field names and leaves those of `key` alone. Other values never
      reach this point (they make the expansion fail), and leave the name as
      it is. */
  function SubstituteValue(name: string, key: string, v: MatrixValue): string {
    match v
    case Scalar(Str(s)) => ReplaceAll(name, key, s)
    case Scalar(_) => name
    case Object(fields) => SubstituteFields(name, fields)
  }

  /** The number of value combinations of the dimensions. */
  function Product(dims: seq<Dimension>): nat {
    if |dims| == 0 then 1 else |dims[0].values| * Product(dims[1..])
  }

  /** Template expansion fails: some dimension is reached (every dimension
      before it has a value) and holds a value that is neither string nor map. */
  predicate Stuck(dims: seq<Dimension>) {
    |dims| > 0 &&
    ((exists i :: 0 <= i < |dims[0].values| && !Substitutable(dims[0].values[i])) ||
     (|dims[0].values| > 0 && Stuck(dims[1..])))
  }

  /** `replaceParametersInJobName`: for each value of the first key, substitute
      it and expand the remaining keys; the cursor over the keys is the suffix
      `dims`. */
  function Expand(name: string, dims: seq<Dimension>): (r: Result<seq<string>, ParseError>)
    ensures r.Ok? ==> |r.value| == Product(dims)
    ensures r.Err? <==> Stuck(dims)
    ensures r.Err? ==> r.error.UnsupportedValueType?
    decreases |dims|, 1, 0
  {
    if |dims| == 0 then Ok([name])
    else ExpandValues(name, dims[0].key, dims[0].values, dims[1..])
  }

  /** The loop over the values of one key, each followed by the expansion of
      the keys after it. */
  function ExpandValues(name: string, key: string, values: seq<MatrixValue>, rest: seq<Dimension>)
    : (r: Result<seq<string>, ParseError>)
    ensures r.Ok? ==> |r.value| == |values| * Product(rest)
    ensures r.Err? <==>
              (exists i :: 0 <= i < |values| && !Substitutable(values[i])) ||
              (|values| > 0 && Stuck(rest))
    ensures r.Err? ==> r.error.UnsupportedValueType?
    decreases |rest| + 1, 0, |values|
  {
    if |values| == 0 then Ok([])
    else if !Substitutable(values[0]) then Err(UnsupportedValueType(TypeName(values[0].scalar)))
    else
      match Expand(SubstituteValue(name, key, values[0]), rest)
      case Err(e) => Err(e)
      case Ok(head) =>
        match ExpandValues(name, key, values[1..], rest)
        case Err(e) => Err(e)
        case Ok(tail) =>
          assert |values| * Product(rest) == Product(rest) + (|values| - 1) * Product(rest);
          Ok(head + tail)
  }

  // ---------------------------------------------------------------------------
  // The cartesian product, stated independently of the expansion

  /** One value per dimension, in dimension order. */
  predicate IsChoice(c: seq<MatrixValue>, dims: seq<Dimension>) {
    |c| == |dims| && forall i :: 0 <= i < |c| ==> c[i] in dims[i].values
  }

  /** Each value followed by each tail, values outermost. */
  function Prepend(values: seq<MatrixValue>, tails: seq<seq<MatrixValue>>): (r: seq<seq<MatrixValue>>)
    ensures |r| == |values| * |tails|
  {
    if |values| == 0 then []
    else
      assert |values| * |tails| == |tails| + (|values| - 1) * |tails|;
      seq(|tails|, i requires 0 <= i < |tails| => [values[0]] + tails[i]) + Prepend(values[1..], tails)
  }

  /** Every entry of `Prepend` is some value followed by some tail. */
  lemma {:induction false} PrependShape(values: seq<MatrixValue>, tails: seq<seq<MatrixValue>>, j: int)
    requires 0 <= j < |Prepend(values, tails)|
    ensures exists a, b :: 0 <= a < |values| && 0 <= b < |tails| && Prepend(values, tails)[j] == [values[a]] + tails[b]
    decreases |values|
  {
    var first := seq(|tails|, i requires 0 <= i < |tails| => [values[0]] + tails[i]);
    var more := Prepend(values[1..], tails);
    assert Prepend(values, tails) == first + more;
    if j < |first| {
      assert Prepend(values, tails)[j] == [values[0]] + tails[j];
    } else {
      PrependShape(values[1..], tails, j - |first|);
      var a, b :| 0 <= a < |values[1..]| && 0 <= b < |tails| && more[j - |first|] == [values[1..][a]] + tails[b];
      assert values[1..][a] == values[a + 1];
      assert Prepend(values, tails)[j] == [values[a + 1]] + tails[b];
    }
  }

  /** All choices of one value per dimension, in the order the expansion
      visits them. */
  function Choices(dims: seq<Dimension>): (r: seq<seq<MatrixValue>>)
    ensures |r| == Product(dims)
    ensures forall j :: 0 <= j < |r| ==> IsChoice(r[j], dims)
    decreases |dims|
  {
    if |dims| == 0 then [[]]
    else
      var tails := Choices(dims[1..]);
      var r := Prepend(dims[0].values, tails);
      assert forall j :: 0 <= j < |r| ==> IsChoice(r[j], dims) by {
        forall j | 0 <= j < |r| ensures IsChoice(r[j], dims) {
          PrependShape(dims[0].values, tails, j);
          var a, b :| 0 <= a < |dims[0].values| && 0 <= b < |tails| && r[j] == [dims[0].values[a]] + tails[b];
          assert IsChoice(tails[b], dims[1..]);
        }
      }
      r
  }

  /** The name with the values of a choice substituted, first dimension first. */
  function ApplyChoice(name: string, dims: seq<Dimension>, c: seq<MatrixValue>): string
    decreases |dims|
  {
    if |dims| == 0 || |c| == 0 then name
    else ApplyChoice(SubstituteValue(name, dims[0].key, c[0]), dims[1..], c[1..])
  }

  function Instances(name: string, dims: seq<Dimension>, cs: seq<seq<MatrixValue>>): (r: seq<string>)
    ensures |r| == |cs|
  {
    seq(|cs|, i requires 0 <= i < |cs| => ApplyChoice(name, dims, cs[i]))
  }

  lemma InstancesConcat(name: string, dims: seq<Dimension>, a: seq<seq<MatrixValue>>, b: seq<seq<MatrixValue>>)
    ensures Instances(name, dims, a + b) == Instances(name, dims, a) + Instances(name, dims, b)
  {
  }

  lemma {:induction false} ExpandValuesIsCartesian(name: string, key: string, values: seq<MatrixValue>, rest: seq<Dimension>)
    requires forall i :: 0 <= i < |values| ==> Substitutable(values[i])
    requires |values| > 0 ==> !Stuck(rest)
    ensures ExpandValues(name, key, values, rest) ==
            Ok(Instances(name, [Dimension(key, values)] + rest, Prepend(values, Choices(rest))))
    decreases |rest| + 1, 0, |values|
  {
    var dims := [Dimension(key, values)] + rest;
    if |values| > 0 {
      var tails := Choices(rest);
      var filled := SubstituteValue(name, key, values[0]);
      var first := seq(|tails|, i requires 0 <= i < |tails| => [values[0]] + tails[i]);
      assert Prepend(values, tails) == first + Prepend(values[1..], tails);
      ExpandIsCartesian(filled, rest);
      ExpandValuesIsCartesian(name, key, values[1..], rest);
      assert dims[1..] == rest;
      assert Instances(name, dims, first) == Instances(filled, rest, tails) by {
        forall i | 0 <= i < |tails|
          ensures ApplyChoice(name, dims, first[i]) == ApplyChoice(filled, rest, tails[i])
        {
          assert first[i][1..] == tails[i];
        }
      }
      InstancesConcat(name, dims, first, Prepend(values[1..], tails));
      assert [Dimension(key, values[1..])] + rest != dims || true;
      assert Instances(name, [Dimension(key, values[1..])] + rest, Prepend(values[1..], tails)) ==
             Instances(name, dims, Prepend(values[1..], tails)) by {
        var d1 := [Dimension(key, values[1..])] + rest;
        forall i | 0 <= i < |Prepend(values[1..], tails)|
          ensures ApplyChoice(name, d1, Prepend(values[1..], tails)[i]) ==
                  ApplyChoice(name, dims, Prepend(values[1..], tails)[i])
        {
          ApplyChoiceKeyOnly(name, d1, dims, Prepend(values[1..], tails)[i]);
        }
      }
    }
  }

  /** Applying a choice only looks at the keys of the dimensions. */
  lemma {:induction false} ApplyChoiceKeyOnly(name: string, d1: seq<Dimension>, d2: seq<Dimension>, c: seq<MatrixValue>)
    requires |d1| == |d2| && forall i :: 0 <= i < |d1| ==> d1[i].key == d2[i].key
    ensures ApplyChoice(name, d1, c) == ApplyChoice(name, d2, c)
    decreases |d1|
  {
    if |d1| > 0 && |c| > 0 {
      ApplyChoiceKeyOnly(SubstituteValue(name, d1[0].key, c[0]), d1[1..], d2[1..], c[1..]);
    }
  }

  /** When the expansion succeeds, it lists, in order, the name with each
      choice of one value per dimension substituted. */
  lemma {:induction false} ExpandIsCartesian(name: string, dims: seq<Dimension>)
    requires !Stuck(dims)
    ensures Expand(name, dims) == Ok(Instances(name, dims, Choices(dims)))
    decreases |dims|, 1, 0
  {
    if |dims| > 0 {
      ExpandValuesIsCartesian(name, dims[0].key, dims[0].values, dims[1..]);
      assert [Dimension(dims[0].key, dims[0].values)] + dims[1..] == dims;
      var d := [Dimension(dims[0].key, dims[0].values)] + dims[1..];
      var p := Prepend(dims[0].values, Choices(dims[1..]));
      assert Choices(dims) == p;
      assert Expand(name, dims) == ExpandValues(name, dims[0].key, dims[0].values, dims[1..]);
      assert ExpandValues(name, dims[0].key, dims[0].values, dims[1..]) == Ok(Instances(name, d, p));
      assert Instances(name, d, p) == Instances(name, dims, p);
    } else {
      assert Instances(name, dims, Choices(dims)) == [name];
    }
  }

  /** Every choice of one value per dimension is among the enumerated ones. */
  lemma {:induction false} ChoicesComplete(c: seq<MatrixValue>, dims: seq<Dimension>)
    requires IsChoice(c, dims)
    ensures c in Choices(dims)
    decreases |dims|
  {
    if |dims| > 0 {
      assert IsChoice(c[1..], dims[1..]) by {
        forall i | 0 <= i < |c[1..]| ensures c[1..][i] in dims[1..][i].values {
          assert c[1..][i] == c[i + 1];
        }
      }
      ChoicesComplete(c[1..], dims[1..]);
      var tails := Choices(dims[1..]);
      var b :| 0 <= b < |tails| && tails[b] == c[1..];
      var a :| 0 <= a < |dims[0].values| && dims[0].values[a] == c[0];
      PrependContains(dims[0].values, tails, a, b);
      assert c == [c[0]] + c[1..];
    }
  }

  lemma {:induction false} PrependContains(values: seq<MatrixValue>, tails: seq<seq<MatrixValue>>, a: nat, b: nat)
    requires a < |values| && b < |tails|
    ensures [values[a]] + tails[b] in Prepend(values, tails)
    decreases |values|
  {
    var first := seq(|tails|, i requires 0 <= i < |tails| => [values[0]] + tails[i]);
    assert Prepend(values, tails) == first + Prepend(values[1..], tails);
    if a == 0 {
      assert first[b] == [values[0]] + tails[b];
    } else {
      PrependContains(values[1..], tails, a - 1, b);
      assert values[1..][a - 1] == values[a];
    }
  }

  /** The position of each combination: values outermost, tails innermost. */
  lemma {:induction false} PrependAt(values: seq<MatrixValue>, tails: seq<seq<MatrixValue>>, a: nat, b: nat)
    requires a < |values| && b < |tails|
    ensures a * |tails| + b < |Prepend(values, tails)|
    ensures Prepend(values, tails)[a * |tails| + b] == [values[a]] + tails[b]
    decreases |values|
  {
    var first := seq(|tails|, i requires 0 <= i < |tails| => [values[0]] + tails[i]);
    assert Prepend(values, tails) == first + Prepend(values[1..], tails);
    assert |values| * |tails| == |tails| + (|values| - 1) * |tails|;
    if a == 0 {
      assert first[b] == [values[0]] + tails[b];
    } else {
      PrependAt(values[1..], tails, a - 1, b);
      assert a * |tails| == |tails| + (a - 1) * |tails|;
      assert values[1..][a - 1] == values[a];
    }
  }

  /** A name is produced by a successful expansion exactly when it is the
      template with some choice of one value per dimension substituted. */
  lemma ExpandMembership(name: string, dims: seq<Dimension>, n: string)
    requires !Stuck(dims)
    ensures Expand(name, dims).Ok?
    ensures n in Expand(name, dims).value <==>
            exists c :: IsChoice(c, dims) && n == ApplyChoice(name, dims, c)
  {
    ExpandIsCartesian(name, dims);
    var cs := Choices(dims);
    var names := Instances(name, dims, cs);
    if n in names {
      var j :| 0 <= j < |names| && names[j] == n;
      assert IsChoice(cs[j], dims);
    }
    if exists c :: IsChoice(c, dims) && n == ApplyChoice(name, dims, c) {
      var c :| IsChoice(c, dims) && n == ApplyChoice(name, dims, c);
      ChoicesComplete(c, dims);
      var j :| 0 <= j < |cs| && cs[j] == c;
      assert names[j] == n;
    }
  }

  // ---------------------------------------------------------------------------
  // Substitution on templates made of text and placeholders

  function FillFields(ps: seq<Piece>, fields: seq<Field>): seq<Piece>
    decreases |fields|
  {
    if |fields| == 0 then ps
    else FillFields(Fill(ps, fields[0].name, Stringify(fields[0].value)), fields[1..])
  }

  predicate PlainFields(fields: seq<Field>) {
    forall i :: 0 <= i < |fields| ==> ValidKey(fields[i].name) && '$' !in Stringify(fields[i].value)
  }

  lemma FillKeepsWellFormed(ps: seq<Piece>, key: string, value: string)
    requires WellFormed(ps) && '$' !in value
    ensures WellFormed(Fill(ps, key, value))
  {
    var r := Fill(ps, key, value);
    forall i | 0 <= i < |r| ensures r[i].WellFormed() {
      assert ps[i].WellFormed();
    }
  }

  /** A string value replaces every placeholder of its key and nothing else. */
  lemma SubstituteString(ps: seq<Piece>, key: string, s: string)
    requires WellFormed(ps) && ValidKey(key)
    ensures SubstituteValue(Render(ps), key, Scalar(Str(s))) == Render(Fill(ps, key, s))
  {
    ReplaceAllRender(ps, key, s);
  }

  /** A map value replaces the placeholders of each field name by the field's
      text, and nothing else; in particular a placeholder of the dimension's
      own key stays unless a field has that name. */
  lemma {:induction false} SubstituteObject(ps: seq<Piece>, key: string, fields: seq<Field>)
    requires WellFormed(ps) && PlainFields(fields)
    ensures SubstituteValue(Render(ps), key, Object(fields)) == Render(FillFields(ps, fields))
    decreases |fields|
  {
    SubstituteFieldsRender(ps, fields);
  }

  lemma {:induction false} SubstituteFieldsRender(ps: seq<Piece>, fields: seq<Field>)
    requires WellFormed(ps) && PlainFields(fields)
    ensures SubstituteFields(Render(ps), fields) == Render(FillFields(ps, fields))
    decreases |fields|
  {
    if |fields| > 0 {
      var f := fields[0];
      ReplaceAllRender(ps, f.name, Stringify(f.value));
      FillKeepsWellFormed(ps, f.name, Stringify(f.value));
      assert PlainFields(fields[1..]) by {
        forall i | 0 <= i < |fields[1..]|
          ensures ValidKey(fields[1..][i].name) && '$' !in Stringify(fields[1..][i].value)
        {
          assert fields[1..][i] == fields[i + 1];
        }
      }
      SubstituteFieldsRender(Fill(ps, f.name, Stringify(f.value)), fields[1..]);
    }
  }

  /** Placeholders whose key no field names survive the substitution of a map. */
  lemma {:induction false} FillFieldsKeepsOtherSlots(ps: seq<Piece>, fields: seq<Field>, i: nat)
    requires i < |ps| && ps[i].Slot?
    requires forall j :: 0 <= j < |fields| ==> fields[j].name != ps[i].key
    ensures |FillFields(ps, fields)| == |ps| && FillFields(ps, fields)[i] == ps[i]
    decreases |fields|
  {
    if |fields| > 0 {
      var next := Fill(ps, fields[0].name, Stringify(fields[0].value));
      assert next[i] == ps[i];
      FillFieldsKeepsOtherSlots(next, fields[1..], i);
    }
  }

  // ---------------------------------------------------------------------------
  // Implicit mode: no placeholder, one dimension

  /** `<base> (<value>)`. */
  function Suffixed(base: string, v: Scalar): string {
    base + " (" + Stringify(v) + ")"
  }

  /** `addParametersToJobName`: one name per scalar value, in value order; any
      map value is the "object parameters" error. */
  function AddParameters(base: string, values: seq<MatrixValue>): (r: Result<seq<string>, ParseError>)
    ensures r.Err? <==> exists i :: 0 <= i < |values| && values[i].Object?
    ensures r.Err? ==> r.error == ObjectParameters
    ensures r.Ok? ==> |r.value| == |values|
    ensures r.Ok? ==> forall i :: 0 <= i < |values| ==>
              values[i].Scalar? && r.value[i] == Suffixed(base, values[i].scalar)
  {
    if |values| == 0 then Ok([])
    else if values[0].Object? then Err(ObjectParameters)
    else
      match AddParameters(base, values[1..])
      case Err(e) => Err(e)
      case Ok(rest) =>
        var r := [Suffixed(base, values[0].scalar)] + rest;
        assert forall i :: 1 <= i < |values| ==> values[i] == values[1..][i - 1];
        Ok(r)
  }

  lemma SuffixedInjective(base: string, x: string, y: string)
    requires base + " (" + x + ")" == base + " (" + y + ")"
    ensures x == y
  {
    var a, b := base + " (" + x + ")", base + " (" + y + ")";
    assert |x| == |y|;
    assert a[|base| + 2..|a| - 1] == x;
    assert b[|base| + 2..|b| - 1] == y;
  }

  /** Distinct integer values give distinct job names. */
  lemma ImplicitNamesDistinct(base: string, values: seq<MatrixValue>, i: nat, j: nat)
    requires AddParameters(base, values).Ok?
    requires i < |values| && j < |values|
    requires values[i].Scalar? && values[i].scalar.Int? && values[j].Scalar? && values[j].scalar.Int?
    requires values[i] != values[j]
    ensures AddParameters(base, values).value[i] != AddParameters(base, values).value[j]
  {
    var names := AddParameters(base, values).value;
    StringifyIntInjective(values[i].scalar.i, values[j].scalar.i);
    if names[i] == names[j] {
      SuffixedInjective(base, Stringify(values[i].scalar), Stringify(values[j].scalar));
    }
  }

  // ---------------------------------------------------------------------------
  // Per-job and per-workflow job names

  /** `fillJobNameParametersForMatrixBuild`. */
  function MatrixJobNames(base: string, matrix: seq<Dimension>): Result<seq<string>, ParseError> {
    if IsTemplate(base) then Expand(base, matrix)
    else if |matrix| == 1 then AddParameters(base, matrix[0].values)
    else Err(MultiDimensional)
  }

  /** The number of names a job contributes when it has no error. */
  function NameCount(job: Job): nat {
    if HasMatrix(job) then Product(job.strategy.value.matrix) else 1
  }

  /** The names one job contributes, as the loop body of
      `ParseWorkflowDefinition` computes them. */
  function JobNames(job: Job): (r: Result<seq<string>, ParseError>)
    ensures !HasMatrix(job) ==> r == Ok([BaseName(job)])
    ensures r.Ok? ==> |r.value| == NameCount(job)
    ensures r == Err(MultiDimensional) <==>
              HasMatrix(job) && !IsTemplate(BaseName(job)) && |job.strategy.value.matrix| >= 2
    ensures r == Err(ObjectParameters) <==>
              HasMatrix(job) && !IsTemplate(BaseName(job)) && |job.strategy.value.matrix| == 1 &&
              exists i :: 0 <= i < |job.strategy.value.matrix[0].values| &&
                          job.strategy.value.matrix[0].values[i].Object?
    ensures r.Err? && r.error.UnsupportedValueType? <==>
              HasMatrix(job) && IsTemplate(BaseName(job)) && Stuck(job.strategy.value.matrix)
    ensures r.Err? ==> r.error.MultiDimensional? || r.error.ObjectParameters? || r.error.UnsupportedValueType?
    ensures r.Ok? && HasMatrix(job) && !IsTemplate(BaseName(job)) ==>
              var values := job.strategy.value.matrix[0].values;
              |job.strategy.value.matrix| == 1 && |r.value| == |values| &&
              forall i :: 0 <= i < |values| ==> values[i].Scalar? && r.value[i] == Suffixed(BaseName(job), values[i].scalar)
  {
    var base := BaseName(job);
    if HasMatrix(job) then
      var m := job.strategy.value.matrix;
      assert |m| == 1 ==> Product(m) == |m[0].values| * Product(m[1..]) && |m[1..]| == 0;
      MatrixJobNames(base, m)
    else Ok([base])
  }

  /** A templated job with no failing value lists every combination of values. */
  lemma TemplateJobNames(job: Job)
    requires HasMatrix(job) && IsTemplate(BaseName(job)) && !Stuck(job.strategy.value.matrix)
    ensures var m := job.strategy.value.matrix;
      JobNames(job) == Ok(Instances(BaseName(job), m, Choices(m)))
  {
    ExpandIsCartesian(BaseName(job), job.strategy.value.matrix);
  }

  function TotalCount(jobs: seq<Job>): nat {
    if |jobs| == 0 then 0 else NameCount(jobs[0]) + TotalCount(jobs[1..])
  }

  /** The loop over all jobs: the names of each job in turn, or the error of the
      first job that fails. */
  function CollectJobNames(jobs: seq<Job>): (r: Result<seq<string>, ParseError>)
    ensures r.Ok? <==> forall i :: 0 <= i < |jobs| ==> JobNames(jobs[i]).Ok?
    ensures r.Err? ==> exists i :: 0 <= i < |jobs| && JobNames(jobs[i]) == Err(r.error) &&
                                   (forall j :: 0 <= j < i ==> JobNames(jobs[j]).Ok?)
    ensures r.Ok? ==> |r.value| == TotalCount(jobs)
    ensures r.Ok? ==> forall n :: n in r.value <==>
              exists i :: 0 <= i < |jobs| && JobNames(jobs[i]).Ok? && n in JobNames(jobs[i]).value
  {
    if |jobs| == 0 then Ok([])
    else
      match JobNames(jobs[0])
      case Err(e) => Err(e)
      case Ok(head) =>
        match CollectJobNames(jobs[1..])
        case Err(e) =>
          assert forall i :: 1 <= i < |jobs| ==> jobs[i] == jobs[1..][i - 1];
          Err(e)
        case Ok(tail) =>
          assert forall i :: 1 <= i < |jobs| ==> jobs[i] == jobs[1..][i - 1];
          Ok(head + tail)
  }

  /** `ParseWorkflowDefinition`: decode, extract the triggers, then expand
      every job eagerly. */
  function ParseWorkflowDefinition(doc: Document): (r: Result<Workflow, ParseError>)
    ensures doc.Undecodable? ==> r == Err(DecodeFailed(doc.reason))
    ensures doc.Decoded? && doc.raw.on.TriggerOther? ==> r == Err(UnsupportedTrigger(doc.raw.name))
    ensures r.Ok? <==> doc.Decoded? && !doc.raw.on.TriggerOther? &&
                       forall i :: 0 <= i < |doc.raw.jobs| ==> JobNames(doc.raw.jobs[i]).Ok?
    ensures r.Ok? ==> r.value.name == doc.raw.name &&
                      r.value.triggers == (if doc.raw.on.TriggerMap? then doc.raw.on.keys else doc.raw.on.entries) &&
                      |r.value.jobNames| == TotalCount(doc.raw.jobs)
    ensures r.Ok? ==> forall n :: n in r.value.jobNames <==>
              exists i :: 0 <= i < |doc.raw.jobs| && JobNames(doc.raw.jobs[i]).Ok? && n in JobNames(doc.raw.jobs[i]).value
    ensures doc.Decoded? && !doc.raw.on.TriggerOther? && r.Err? ==>
              exists i :: 0 <= i < |doc.raw.jobs| && JobNames(doc.raw.jobs[i]) == Err(r.error) &&
                          (forall j :: 0 <= j < i ==> JobNames(doc.raw.jobs[j]).Ok?)
  {
    match doc
    case Undecodable(reason) => Err(DecodeFailed(reason))
    case Decoded(raw) =>
      var triggers :- Triggers(raw);
      var names :- CollectJobNames(raw.jobs);
      Ok(Workflow(raw.name, triggers, names))
  }
}

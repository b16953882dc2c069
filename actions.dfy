/**
 * The action mini-language of the table converter (`name:fields[:options]`) and the
 * actions it builds, applied to a row's flat and nested views in list order; with
 * them the row-level helpers those actions are made of, and `remap_columns`.
 */
module Actions {

  import opened Wrappers
  import opened Values
  import Strings
  import NestedField
  import FieldOps
  import Lookup
  import Rows
  import Converter

  /** The value of an option: `key=value` gives its text, a bare `key` gives True. */
  datatype OptVal = Flag | Text(s: string)

  datatype AssignConstantConfig = AssignConstantConfig(target: string, value: Value)

  /** `SplitConfig`; the delimiter is the `delimiter` option, absent meaning runs of blanks. */
  datatype SplitConfig = SplitConfig(target: string, source: string, delimiter: Option<OptVal>)

  datatype Action = ConstantAction(constant: AssignConstantConfig) | SplitAction(split: SplitConfig)

  datatype PickConfig = PickConfig(source: string, target: string)

  // ---------------------------------------------------------------------------
  // setup_actions_with_args

  /** One comma-separated option: `key=value` with both sides stripped, or a bare key set to True. */
  function ParseOption(text: string): (r: Result<(string, OptVal)>)
    ensures '=' !in text ==> r == Ok((Strings.Strip(text), Flag))
    ensures r.Err? ==> r.error == ValueError(UnpackMismatch)
  {
    if '=' in text then
      var (k, v) :- Converter.ParseEntry(text, false);
      Ok((Strings.Strip(k), Text(Strings.Strip(v))))
    else Ok((Strings.Strip(text), Flag))
  }

  /** The option loop: a later option overwrites an earlier one with the same key. */
  function OptionsInto(m: OMap<OptVal>, parts: seq<string>): (r: Result<OMap<OptVal>>)
    ensures r.Err? ==> r.error == ValueError(UnpackMismatch)
    decreases |parts|
  {
    if parts == [] then Ok(m)
    else
      var (k, v) :- ParseOption(parts[0]);
      OptionsInto(Put(m, k, v), parts[1..])
  }

  /** The options of an action, from its stripped third part; an empty part has none. */
  function ParseOptions(text: string): (r: Result<OMap<OptVal>>)
    ensures r.Err? ==> r.error == ValueError(UnpackMismatch)
  {
    if text == "" then Ok([]) else OptionsInto([], Strings.Split(text, ","))
  }

  /** One comma-separated field: `target=source` with both sides stripped, or a bare name for both. */
  function ParseField(field: string): (r: Result<(string, string)>)
    ensures '=' !in field ==> r == Ok((Strings.Strip(field), Strings.Strip(field)))
    ensures r.Err? ==> r.error == ValueError(UnpackMismatch)
  {
    var (t, s) :- Converter.ParseEntry(field, true);
    Ok((Strings.Strip(t), Strings.Strip(s)))
  }

  /** What a `type=` name asks for. */
  datatype TypeKind = AsText | AsInt | AsFloat | AsBool | Unsupported

  /** The type names assign-constant knows, each with its alias. */
  function KindOf(t: string): TypeKind {
    if t == "str" || t == "string" then AsText
    else if t == "int" || t == "integer" then AsInt
    else if t == "float" then AsFloat
    else if t == "bool" || t == "boolean" then AsBool
    else Unsupported
  }

  /** The `type` option of assign-constant applied to the source text; `str` when the option is absent. */
  function Coerce(typeName: Option<OptVal>, source: string): (r: Result<Value>)
    ensures r.Err? ==> r.error.ValueError? && r.error.reason in {NotAnInteger(source), NoFloats, UnsupportedType}
  {
    match typeName
    case None => Ok(Str(source))
    case Some(Flag) => Err(ValueError(UnsupportedType))
    case Some(Text(t)) =>
      match KindOf(t)
      case AsText => Ok(Str(source))
      case AsInt =>
        (match Strings.ParseInt(source)
         case Some(n) => Ok(Int(n))
         case None => Err(ValueError(NotAnInteger(source))))
      case AsFloat => Err(ValueError(NoFloats))
      case AsBool => Ok(Bool(source != ""))
      case Unsupported => Err(ValueError(UnsupportedType))
  }

  /** The config that action `name` builds for one field. */
  function ActionFor(name: string, options: OMap<OptVal>, target: string, source: string): (r: Result<Action>)
    ensures r.Err? ==> r.error.ValueError? && r.error.reason != BadActionArity && r.error.reason != UnpackMismatch
  {
    if name == "assign-constant" then
      var value :- Coerce(Get(options, "type"), source);
      Ok(ConstantAction(AssignConstantConfig(target, value)))
    else if name == "split" then
      Ok(SplitAction(SplitConfig(target, source, Get(options, "delimiter"))))
    else Err(ValueError(UnsupportedAction(name)))
  }

  /** The config one field contributes. */
  function FieldAction(name: string, options: OMap<OptVal>, field: string): (r: Result<Action>)
    ensures r.Err? ==> r.error.ValueError? && r.error.reason != BadActionArity
  {
    var (target, source) :- ParseField(field);
    ActionFor(name, options, target, source)
  }

  /** The config of each field, or the exception it raises. */
  function Built(name: string, options: OMap<OptVal>, fields: seq<string>): (b: seq<Result<Action>>)
    ensures |b| == |fields| && forall i :: 0 <= i < |fields| ==> b[i] == FieldAction(name, options, fields[i])
  {
    seq(|fields|, i requires 0 <= i < |fields| => FieldAction(name, options, fields[i]))
  }

  /** Configs appended in order; the first exception stops and keeps what was appended before it. */
  function Collect(actions: seq<Action>, built: seq<Result<Action>>): (r: (seq<Action>, Outcome))
    ensures actions <= r.0
    ensures r.1.Fail? ==> Err(r.1.error) in built
    ensures r.1.Pass? ==> |r.0| == |actions| + |built|
    decreases |built|
  {
    if built == [] then (actions, Pass)
    else
      match built[0]
      case Err(e) => (actions, Fail(e))
      case Ok(a) =>
        var r := Collect(actions + [a], built[1..]);
        assert r.1.Fail? ==> Err(r.1.error) in built by {
          assert forall x :: x in built[1..] ==> x in built;
        }
        r
  }

  /**
   * The field loop of one action: one config appended per field, in field order; the first
   * field that raises stops the loop and keeps what was appended before it.
   */
  function FieldsInto(actions: seq<Action>, name: string, options: OMap<OptVal>, fields: seq<string>): (r: (seq<Action>, Outcome))
    ensures actions <= r.0
    ensures r.1.Fail? ==> r.1.error.ValueError? && r.1.error.reason != BadActionArity
    ensures r.1.Pass? ==> |r.0| == |actions| + |fields|
  {
    Collect(actions, Built(name, options, fields))
  }

  /** One action string `name:fields[:options]`, its configs appended to `actions`. */
  function ParseAction(actions: seq<Action>, text: string): (seq<Action>, Outcome) {
    var parts := Strings.Split(text, ":");
    if |parts| != 2 && |parts| != 3 then (actions, Fail(ValueError(BadActionArity)))
    else
      var name := Strings.Strip(parts[0]);
      match ParseOptions(if |parts| == 3 then Strings.Strip(parts[2]) else "")
      case Err(e) => (actions, Fail(e))
      case Ok(options) => FieldsInto(actions, name, options, Strings.Split(Strings.Strip(parts[1]), ","))
  }

  /** `setup_actions_with_args(config, list_actions)` on `config.actions`. */
  function ParseActions(actions: seq<Action>, texts: seq<string>): (seq<Action>, Outcome)
    decreases |texts|
  {
    if texts == [] then (actions, Pass)
    else
      var (actions', o) := ParseAction(actions, texts[0]);
      if o.Fail? then (actions', o) else ParseActions(actions', texts[1..])
  }

  /** The option loop of `setup_actions_with_args`. */
  method SetupOptions(text: string) returns (r: Result<OMap<OptVal>>)
    ensures r == ParseOptions(text)
  {
    if text == "" {
      return Ok([]);
    }
    var parts := Strings.Split(text, ",");
    var m: OMap<OptVal> := [];
    for i := 0 to |parts|
      invariant OptionsInto(m, parts[i..]) == ParseOptions(text)
    {
      assert parts[i..][1..] == parts[i + 1..];
      var p := ParseOption(parts[i]);
      if p.Err? {
        return Err(p.error);
      }
      m := Put(m, p.value.0, p.value.1);
    }
    assert parts[|parts|..] == [];
    return Ok(m);
  }

  /** `setup_actions_with_args`: every action string in turn, each field of it in turn. */
  method SetupActionsWithArgs(actions: seq<Action>, texts: seq<string>) returns (r: seq<Action>, o: Outcome)
    ensures (r, o) == ParseActions(actions, texts)
  {
    r := actions;
    for i := 0 to |texts|
      invariant ParseActions(r, texts[i..]) == ParseActions(actions, texts)
    {
      assert texts[i..][1..] == texts[i + 1..];
      ghost var before := r;
      var parts := Strings.Split(texts[i], ":");
      if |parts| != 2 && |parts| != 3 {
        return r, Fail(ValueError(BadActionArity));
      }
      var name := Strings.Strip(parts[0]);
      var options := SetupOptions(if |parts| == 3 then Strings.Strip(parts[2]) else "");
      if options.Err? {
        return r, Fail(options.error);
      }
      var fields := Strings.Split(Strings.Strip(parts[1]), ",");
      assert ParseAction(before, texts[i]) == FieldsInto(before, name, options.value, fields);
      r, o := SetupFields(r, name, options.value, fields);
      if o.Fail? {
        return;
      }
    }
    assert texts[|texts|..] == [];
    o := Pass;
  }

  /** The field loop of one action string. */
  method SetupFields(actions: seq<Action>, name: string, options: OMap<OptVal>, fields: seq<string>) returns (r: seq<Action>, o: Outcome)
    ensures (r, o) == FieldsInto(actions, name, options, fields)
  {
    ghost var built := Built(name, options, fields);
    r := actions;
    for j := 0 to |fields|
      invariant Collect(r, built[j..]) == FieldsInto(actions, name, options, fields)
    {
      assert built[j..][0] == built[j] && built[j..][1..] == built[j + 1..];
      var a := FieldAction(name, options, fields[j]);
      if a.Err? {
        return r, Fail(a.error);
      }
      r := r + [a.value];
    }
    assert built[|fields|..] == [];
    o := Pass;
  }

  /** Only a text without 2 or 3 colon-separated parts raises the arity error, and it appends nothing. */
  lemma ParseActionArity(actions: seq<Action>, text: string)
    ensures var parts := Strings.Split(text, ":");
            ParseAction(actions, text).1 == Fail(ValueError(BadActionArity)) <==> |parts| != 2 && |parts| != 3
    ensures ParseAction(actions, text).1 == Fail(ValueError(BadActionArity)) ==> ParseAction(actions, text).0 == actions
  {
    var parts := Strings.Split(text, ":");
    if |parts| == 2 || |parts| == 3 {
      var name := Strings.Strip(parts[0]);
      var options := ParseOptions(if |parts| == 3 then Strings.Strip(parts[2]) else "");
      var r := ParseAction(actions, text);
      if options.Ok? {
        var fields := Strings.Split(Strings.Strip(parts[1]), ",");
        assert r == FieldsInto(actions, name, options.value, fields);
        var o := FieldsInto(actions, name, options.value, fields).1;
        assert o.Fail? ==> o.error.reason != BadActionArity;
      } else {
        assert r == (actions, Fail(options.error));
        assert options.error.reason == UnpackMismatch;
      }
    } else {
      assert ParseAction(actions, text) == (actions, Fail(ValueError(BadActionArity)));
    }
  }

  /** An action whose name is neither `assign-constant` nor `split` raises ValueError and appends nothing. */
  lemma UnknownActionAppendsNothing(actions: seq<Action>, text: string)
    requires var parts := Strings.Split(text, ":");
             (|parts| == 2 || |parts| == 3) && Strings.Strip(parts[0]) !in {"assign-constant", "split"}
    ensures ParseAction(actions, text).0 == actions
    ensures ParseAction(actions, text).1.Fail? && ParseAction(actions, text).1.error.ValueError?
  {
    var parts := Strings.Split(text, ":");
    var name := Strings.Strip(parts[0]);
    var options := ParseOptions(if |parts| == 3 then Strings.Strip(parts[2]) else "");
    if options.Ok? {
      var fields := Strings.Split(Strings.Strip(parts[1]), ",");
      assert ParseAction(actions, text) == FieldsInto(actions, name, options.value, fields);
      var built := Built(name, options.value, fields);
      assert built[0].Err? by {
        UnknownActionRaises(name, options.value, fields[0]);
      }
      CollectFirstErr(actions, built);
    } else {
      assert ParseAction(actions, text) == (actions, Fail(options.error));
    }
  }

  /** A collection whose first entry is an error stops there and appends nothing. */
  lemma CollectFirstErr(actions: seq<Action>, built: seq<Result<Action>>)
    requires |built| > 0 && built[0].Err?
    ensures Collect(actions, built) == (actions, Fail(built[0].error))
  {
  }

  /** A field of an unknown action raises, whatever the field. */
  lemma UnknownActionRaises(name: string, options: OMap<OptVal>, field: string)
    requires name != "assign-constant" && name != "split"
    ensures FieldAction(name, options, field).Err?
  {
  }

  /** A parsed action holds one config per field, each the one its field builds, after the earlier ones. */
  lemma FieldsIntoOnePerField(actions: seq<Action>, name: string, options: OMap<OptVal>, fields: seq<string>)
    requires FieldsInto(actions, name, options, fields).1.Pass?
    ensures var r := FieldsInto(actions, name, options, fields).0;
            forall j :: 0 <= j < |fields| ==> FieldAction(name, options, fields[j]) == Ok(r[|actions| + j])
  {
    var built := Built(name, options, fields);
    forall j | 0 <= j < |fields|
      ensures FieldAction(name, options, fields[j]) == Ok(Collect(actions, built).0[|actions| + j])
    {
      CollectAt(actions, built, j);
    }
  }

  /** The config at position `j` after the earlier ones is the one built at `j`. */
  lemma {:induction false} CollectAt(actions: seq<Action>, built: seq<Result<Action>>, j: nat)
    requires Collect(actions, built).1.Pass? && j < |built|
    ensures built[j] == Ok(Collect(actions, built).0[|actions| + j])
    decreases j
  {
    var a := built[0].value;
    var r := Collect(actions, built).0;
    assert r == Collect(actions + [a], built[1..]).0;
    if j == 0 {
      assert actions + [a] <= r;
      assert r[|actions|] == (actions + [a])[|actions|];
    } else {
      CollectAt(actions + [a], built[1..], j - 1);
      assert built[1..][j - 1] == built[j];
    }
  }

  /** `target=source` parses to its stripped sides; a bare option is True. */
  lemma ParseFieldJoin(target: string, source: string)
    requires '=' !in target && '=' !in source
    ensures ParseField(target + "=" + source) == Ok((Strings.Strip(target), Strings.Strip(source)))
    ensures ParseOption(target + "=" + source) == Ok((Strings.Strip(target), Text(Strings.Strip(source))))
  {
    Converter.ParseEntryJoin(target, source, true);
    Converter.ParseEntryJoin(target, source, false);
  }

  /** Coercion with `int` reads back the decimal text of any integer. */
  lemma CoerceInt(n: int)
    ensures Coerce(Some(Text("int")), Strings.IntToString(n)) == Ok(Int(n))
    ensures Coerce(Some(Text("integer")), Strings.IntToString(n)) == Ok(Int(n))
  {
    var s := Strings.IntToString(n);
    Strings.ParseIntToString(n);
    IntNames();
    CoerceAsInt("int", s, n);
    CoerceAsInt("integer", s, n);
  }

  /** A type name of the integer kind parses the source as an integer. */
  lemma CoerceAsInt(t: string, s: string, n: int)
    requires KindOf(t) == AsInt && Strings.ParseInt(s) == Some(n)
    ensures Coerce(Some(Text(t)), s) == Ok(Int(n))
  {
  }

  lemma IntNames()
    ensures KindOf("int") == AsInt && KindOf("integer") == AsInt
  {
    assert "int"[0] != "str"[0] && "int"[0] != "string"[0];
    assert "integer"[0] != "str"[0] && "integer"[0] != "string"[0];
  }

  lemma BoolNames()
    ensures KindOf("bool") == AsBool && KindOf("boolean") == AsBool
  {
    assert "bool"[0] != "str"[0] && "bool"[0] != "string"[0] && "bool"[0] != "int"[0];
    assert "bool"[0] != "integer"[0] && "bool"[0] != "float"[0];
    assert "boolean"[0] != "str"[0] && "boolean"[0] != "string"[0] && "boolean"[0] != "int"[0];
    assert "boolean"[0] != "integer"[0] && "boolean"[0] != "float"[0];
  }

  /** Coercion with `bool` is true for every non-empty text, the text `false` included; `str` keeps the text. */
  lemma CoerceText(s: string)
    ensures Coerce(Some(Text("bool")), s) == Ok(Bool(true)) <==> s != ""
    ensures Coerce(Some(Text("boolean")), "false") == Ok(Bool(true))
    ensures Coerce(None, s) == Coerce(Some(Text("string")), s) == Ok(Str(s))
  {
    BoolNames();
  }

  // ---------------------------------------------------------------------------
  // Row helpers: set_row_value, set_row_staging_value, pop_row_value, pop_row_staging

  /** The flat key of `target` inside the staging area. */
  function StagingKey(target: string): string {
    Lookup.Staging + "." + target
  }

  /**
   * `set_row_value(row, target, value)`: the flat view is expanded first, and its depth guard
   * stops before the nested view is touched; the nested write can then still raise TypeError,
   * after the flat view was written.
   */
  function WriteRow(s: Rows.State, target: string, value: Value): (Rows.State, Outcome) {
    var (f, o) := FieldOps.FlatWrite(s.flat, target, value, 0);
    if o.Fail? then (Rows.State(f, s.nested), o)
    else
      match NestedField.SetNestedFieldValue(s.nested, target, value)
      case Err(e) => (Rows.State(f, s.nested), Fail(e))
      case Ok(n) => (Rows.State(f, n), Pass)
  }

  method SetRowValue(row: Rows.Row, target: string, value: Value) returns (o: Outcome)
    modifies row
    ensures (row.Snapshot(), o) == WriteRow(old(row.Snapshot()), target, value)
  {
    var f;
    f, o := FieldOps.SetFlatFieldValue(row.flat, target, value, 0);
    row.flat := f;
    if o.Fail? {
      return;
    }
    var n := NestedField.SetNestedFieldValue(row.nested, target, value);
    if n.Err? {
      return Fail(n.error);
    }
    row.nested := n.value;
  }

  method SetRowStagingValue(row: Rows.Row, target: string, value: Value) returns (o: Outcome)
    modifies row
    ensures (row.Snapshot(), o) == WriteRow(old(row.Snapshot()), StagingKey(target), value)
  {
    o := SetRowValue(row, StagingKey(target), value);
  }

  /** The three ways `set_row_value` ends, and what each leaves in the two views. */
  lemma WriteRowOrder(s: Rows.State, target: string, value: Value)
    ensures !FieldOps.DepthOK(value, 0)
            ==> WriteRow(s, target, value).1 == Fail(ValueError(DepthTooHigh)) && WriteRow(s, target, value).0.nested == s.nested
    ensures FieldOps.DepthOK(value, 0)
            ==> WriteRow(s, target, value).0.flat == FieldOps.PutAll(s.flat, FieldOps.Leaves(target, value))
    ensures FieldOps.DepthOK(value, 0) && !NestedField.Writable(s.nested, target)
            ==> WriteRow(s, target, value) == (Rows.State(WriteRow(s, target, value).0.flat, s.nested), Fail(TypeError))
    ensures FieldOps.DepthOK(value, 0) && NestedField.Writable(s.nested, target) ==> WriteRow(s, target, value).1 == Pass
  {
    FieldOps.FlatWritePasses(s.flat, target, value, 0);
    Rows.FlatWriteFails(s.flat, target, value, 0);
    if FieldOps.DepthOK(value, 0) {
      FieldOps.FlatWriteLeaves(s.flat, target, value, 0);
    }
  }

  /** A write that passes reads back through the nested view, and a scalar or list also through the flat view. */
  lemma WriteRowReadsBack(s: Rows.State, target: string, value: Value)
    requires WriteRow(s, target, value).1 == Pass && NestedField.NoDottedShadow(s.nested, target)
    ensures Lookup.Resolve(Obj(WriteRow(s, target, value).0.nested), target) == Some(value)
    ensures !value.Obj? ==> Get(WriteRow(s, target, value).0.flat, target) == Some(value)
  {
    Lookup.ResolveAfterSet(s.nested, target, value);
  }

  /** `pop_row_value(row, key, default)`: the flat keys under `key` go, then the nested value is popped. */
  function PopRow(s: Rows.State, key: string, default: Value): (Rows.State, Result<Value>) {
    var (n, v) := FieldOps.PopAt(s.nested, Strings.Split(key, "."), default);
    (Rows.State(FieldOps.Without(s.flat, key), n), v)
  }

  /** `pop_row_value`; the flat view has distinct keys, as every dictionary does. */
  method PopRowValue(row: Rows.Row, key: string, default: Value) returns (v: Result<Value>)
    requires Distinct(row.flat)
    modifies row
    ensures (row.Snapshot(), v) == PopRow(old(row.Snapshot()), key, default)
  {
    row.flat := FieldOps.DeleteFlatRowValue(row.flat, key);
    row.nested, v := FieldOps.PopNestedRowValue(row.nested, key, default);
  }

  /** `pop_row_staging(row, default)` */
  method PopRowStaging(row: Rows.Row, default: Value) returns (v: Result<Value>)
    requires Distinct(row.flat)
    modifies row
    ensures (row.Snapshot(), v) == PopRow(old(row.Snapshot()), Lookup.Staging, default)
  {
    v := PopRowValue(row, Lookup.Staging, default);
  }

  /**
   * After a pop no flat key lies under `key` and the dotted path holds nothing; the value
   * returned is the one that was there, or `default`.
   */
  lemma PopRowClears(s: Rows.State, key: string, default: Value)
    ensures var r := PopRow(s, key, default).0;
            forall i :: 0 <= i < |r.flat| ==> !FieldOps.Under(r.flat[i].0, key)
    ensures NestedField.Descend(s.nested, key).Some? ==> NestedField.Descend(PopRow(s, key, default).0.nested, key).None?
    ensures PopRow(s, key, default).1.Ok? ==> PopRow(s, key, default).1.value == NestedField.Descend(s.nested, key).GetOr(default)
  {
    FieldOps.PopRemoves(s.nested, key, default);
    if PopRow(s, key, default).1.Ok? {
      FieldOps.PopFindsValue(s.nested, key, default);
    }
  }

  // ---------------------------------------------------------------------------
  // assign_constant, split_field, do_action, do_actions

  /** Texts as string values. */
  function Texts(parts: seq<string>): (r: seq<Value>)
    ensures |r| == |parts| && forall i :: 0 <= i < |parts| ==> r[i] == Str(parts[i])
  {
    seq(|parts|, i requires 0 <= i < |parts| => Str(parts[i]))
  }

  /**
   * The value `split_field` writes: a text becomes the non-empty pieces of `str.split(delimiter)`,
   * where no delimiter means runs of blanks, an empty one raises ValueError and a True one TypeError;
   * any other value is written as it is.
   */
  function SplitValue(v: Value, delimiter: Option<OptVal>): (r: Result<Value>)
    ensures !v.Str? ==> r == Ok(v)
  {
    match v
    case Str(s) =>
      (match delimiter
       case None => Ok(List(Texts(Strings.DropEmpty(Strings.SplitWhitespace(s)))))
       case Some(Flag) => Err(TypeError)
       case Some(Text(d)) =>
         if d == "" then Err(ValueError(EmptySeparator))
         else Ok(List(Texts(Strings.DropEmpty(Strings.Split(s, d))))))
    case _ => Ok(v)
  }

  /** Dropping empty pieces does not change what they spell. */
  lemma {:induction false} ConcatDropEmpty(parts: seq<string>)
    ensures Strings.Concat(Strings.DropEmpty(parts)) == Strings.Concat(parts)
    decreases |parts|
  {
    if parts != [] {
      ConcatDropEmpty(parts[1..]);
      var head := if parts[0] == [] then [] else [parts[0]];
      assert Strings.DropEmpty(parts) == head + Strings.DropEmpty(parts[1..]);
      ConcatAppend(head, Strings.DropEmpty(parts[1..]));
    }
  }

  lemma {:induction false} ConcatAppend(a: seq<string>, b: seq<string>)
    ensures Strings.Concat(a + b) == Strings.Concat(a) + Strings.Concat(b)
    decreases |a|
  {
    if a == [] {
      assert a + b == b;
    } else {
      assert (a + b)[1..] == a[1..] + b;
      ConcatAppend(a[1..], b);
    }
  }

  /**
   * Splitting on blanks gives non-empty words without blanks that spell the text's non-blank
   * characters; splitting on a delimiter gives non-empty pieces without it that spell the pieces
   * between its occurrences, which joined back by it give the text.
   */
  lemma SplitValueTokens(s: string, delimiter: Option<OptVal>)
    requires SplitValue(Str(s), delimiter).Ok?
    ensures var items := SplitValue(Str(s), delimiter).value.items;
            forall i :: 0 <= i < |items| ==> items[i].Str? && items[i].s != []
    ensures delimiter.None? ==>
              var words := Strings.DropEmpty(Strings.SplitWhitespace(s));
              SplitValue(Str(s), delimiter).value == List(Texts(words)) && Strings.Concat(words) == Strings.NonBlank(s)
    ensures delimiter.Some? ==>
              var d := delimiter.value.s;
              var pieces := Strings.DropEmpty(Strings.Split(s, d));
              && SplitValue(Str(s), delimiter).value == List(Texts(pieces))
              && (forall p :: p in pieces ==> Strings.FindFrom(p, d, 0).None?)
              && Strings.Concat(pieces) == Strings.Concat(Strings.Split(s, d))
              && Strings.Join(Strings.Split(s, d), d) == s
  {
    match delimiter
    case None => SplitOnBlanks(s);
    case Some(Text(d)) => SplitOnDelimiter(s, d);
  }

  lemma SplitOnBlanks(s: string)
    ensures var words := Strings.DropEmpty(Strings.SplitWhitespace(s));
            && SplitValue(Str(s), None) == Ok(List(Texts(words)))
            && (forall i :: 0 <= i < |words| ==> words[i] != [])
            && Strings.Concat(words) == Strings.NonBlank(s)
  {
    var words := Strings.SplitWhitespace(s);
    var kept := Strings.DropEmpty(words);
    assert forall i :: 0 <= i < |kept| ==> kept[i] in kept;
    Strings.SplitWhitespaceKeepsText(s);
    ConcatDropEmpty(words);
  }

  lemma SplitOnDelimiter(s: string, d: string)
    requires d != ""
    ensures var pieces := Strings.DropEmpty(Strings.Split(s, d));
            && SplitValue(Str(s), Some(Text(d))) == Ok(List(Texts(pieces)))
            && (forall i :: 0 <= i < |pieces| ==> pieces[i] != [])
            && (forall p :: p in pieces ==> Strings.FindFrom(p, d, 0).None?)
            && Strings.Concat(pieces) == Strings.Concat(Strings.Split(s, d))
            && Strings.Join(Strings.Split(s, d), d) == s
  {
    var parts := Strings.Split(s, d);
    var kept := Strings.DropEmpty(parts);
    assert SplitValue(Str(s), Some(Text(d))) == Ok(List(Texts(kept)));
    forall i | 0 <= i < |kept| ensures kept[i] != [] {
      assert kept[i] in kept;
    }
    Strings.SplitPiecesFree(s, d);
    forall p | p in kept ensures Strings.FindFrom(p, d, 0).None? {
      assert p in parts;
    }
    ConcatDropEmpty(parts);
    Strings.JoinSplit(s, d);
  }

  /** `assign_constant(row, config)`: the constant is written at `staging.<target>`. */
  function ApplyConstant(s: Rows.State, c: AssignConstantConfig): (Rows.State, Outcome) {
    WriteRow(s, StagingKey(c.target), c.value)
  }

  /** `split_field(row, config)`: the source is searched in the flat view; not found changes nothing. */
  function ApplySplit(s: Rows.State, c: SplitConfig): (Rows.State, Outcome) {
    match Lookup.Search(s.flat, c.source)
    case None => (s, Pass)
    case Some(v) =>
      match SplitValue(v, c.delimiter)
      case Err(e) => (s, Fail(e))
      case Ok(w) => WriteRow(s, StagingKey(c.target), w)
  }

  function Apply(s: Rows.State, a: Action): (Rows.State, Outcome) {
    match a
    case ConstantAction(c) => ApplyConstant(s, c)
    case SplitAction(c) => ApplySplit(s, c)
  }

  /** `do_actions(row, actions)`: the actions in list order, up to the first that raises. */
  function ApplyAll(s: Rows.State, actions: seq<Action>): (Rows.State, Outcome)
    decreases |actions|
  {
    if actions == [] then (s, Pass)
    else
      var (s', o) := Apply(s, actions[0]);
      if o.Fail? then (s', o) else ApplyAll(s', actions[1..])
  }

  method AssignConstant(row: Rows.Row, config: AssignConstantConfig) returns (o: Outcome)
    modifies row
    ensures (row.Snapshot(), o) == ApplyConstant(old(row.Snapshot()), config)
  {
    o := SetRowStagingValue(row, config.target, config.value);
  }

  method SplitField(row: Rows.Row, config: SplitConfig) returns (o: Outcome)
    modifies row
    ensures (row.Snapshot(), o) == ApplySplit(old(row.Snapshot()), config)
  {
    var found := Lookup.Search(row.flat, config.source);
    if found.None? {
      return Pass;
    }
    var value := SplitValue(found.value, config.delimiter);
    if value.Err? {
      return Fail(value.error);
    }
    o := SetRowStagingValue(row, config.target, value.value);
  }

  method DoAction(row: Rows.Row, action: Action) returns (o: Outcome)
    modifies row
    ensures (row.Snapshot(), o) == Apply(old(row.Snapshot()), action)
  {
    match action {
      case ConstantAction(c) =>
        o := AssignConstant(row, c);
      case SplitAction(c) =>
        o := SplitField(row, c);
    }
  }

  method DoActions(row: Rows.Row, actions: seq<Action>) returns (o: Outcome)
    modifies row
    ensures (row.Snapshot(), o) == ApplyAll(old(row.Snapshot()), actions)
  {
    for i := 0 to |actions|
      invariant ApplyAll(row.Snapshot(), actions[i..]) == ApplyAll(old(row.Snapshot()), actions)
    {
      assert actions[i..][1..] == actions[i + 1..];
      o := DoAction(row, actions[i]);
      if o.Fail? {
        return;
      }
    }
    assert actions[|actions|..] == [];
    o := Pass;
  }

  /** Running two lists of actions one after the other is running their concatenation. */
  lemma {:induction false} ApplyAllAppend(s: Rows.State, a: seq<Action>, b: seq<Action>)
    ensures ApplyAll(s, a + b) == match ApplyAll(s, a) case (s', Pass) => ApplyAll(s', b) case failed => failed
    decreases |a|
  {
    if a == [] {
      assert a + b == b;
    } else {
      assert (a + b)[0] == a[0] && (a + b)[1..] == a[1..] + b;
      var (s', o) := Apply(s, a[0]);
      if o.Pass? {
        ApplyAllAppend(s', a[1..], b);
      }
    }
  }

  /** A split whose source is not found leaves the row as it was; a found non-text is written unchanged. */
  lemma ApplySplitCases(s: Rows.State, c: SplitConfig)
    ensures Lookup.Search(s.flat, c.source).None? ==> ApplySplit(s, c) == (s, Pass)
    ensures Lookup.Search(s.flat, c.source).Some? && !Lookup.Search(s.flat, c.source).value.Str?
            ==> ApplySplit(s, c) == WriteRow(s, StagingKey(c.target), Lookup.Search(s.flat, c.source).value)
  {
  }

  /** A constant that is written reads back at `staging.<target>`. */
  lemma ApplyConstantStores(s: Rows.State, c: AssignConstantConfig)
    requires ApplyConstant(s, c).1 == Pass && NestedField.NoDottedShadow(s.nested, StagingKey(c.target))
    ensures Lookup.Resolve(Obj(ApplyConstant(s, c).0.nested), StagingKey(c.target)) == Some(c.value)
    ensures !c.value.Obj? ==> Get(ApplyConstant(s, c).0.flat, StagingKey(c.target)) == Some(c.value)
  {
    WriteRowReadsBack(s, StagingKey(c.target), c.value);
  }

  // ---------------------------------------------------------------------------
  // prepare_row, nest_row

  /** Folding `set_nested_field_value` over the flat entries, from entry `i` on, into `acc`. */
  function NestFrom(acc: ODict, flat: ODict, i: nat): Result<ODict>
    requires i <= |flat|
    decreases |flat| - i
  {
    if i == |flat| then Ok(acc)
    else
      var acc' :- NestedField.SetNestedFieldValue(acc, flat[i].0, flat[i].1);
      NestFrom(acc', flat, i + 1)
  }

  /** `nest_row(flat_row)`: the nested view of a flat row, writing each dotted key in order. */
  function NestRow(flat: ODict): Result<ODict> {
    NestFrom([], flat, 0)
  }

  /** A flat row without dotted keys is its own nested view. */
  lemma NestRowDotFree(flat: ODict)
    requires Distinct(flat) && Lookup.DotFreeKeys(flat)
    ensures NestRow(flat) == Ok(flat)
  {
    NestFromDotFree(flat, 0);
  }

  lemma {:induction false} NestFromDotFree(flat: ODict, i: nat)
    requires i <= |flat| && Distinct(flat) && Lookup.DotFreeKeys(flat)
    ensures NestFrom(flat[..i], flat, i) == Ok(flat)
    decreases |flat| - i
  {
    if i == |flat| {
      assert flat[..i] == flat;
    } else {
      var (k, v) := flat[i];
      assert Strings.SplitOnce(k, '.') == (k, None);
      assert !HasKey(flat[..i], k) by {
        forall j | 0 <= j < i ensures flat[..i][j].0 != k {
          assert flat[..i][j] == flat[j];
        }
      }
      PutAbsent(flat[..i], k, v);
      assert flat[..i] + [(k, v)] == flat[..i + 1];
      NestFromDotFree(flat, i + 1);
    }
  }

  /** `prepare_row(flat_row)`: a row holding a copy of the flat row (empty when there is none) and its nested view. */
  function PrepareRow(flat: Option<ODict>): Result<Rows.State> {
    var f := flat.GetOr([]);
    var n :- NestRow(f);
    Ok(Rows.State(f, n))
  }

  /** Without a flat row the prepared row is empty; a flat row without dotted keys is also its nested view. */
  lemma PrepareRowDotFree(flat: ODict)
    requires Distinct(flat) && Lookup.DotFreeKeys(flat)
    ensures PrepareRow(None) == Ok(Rows.State([], []))
    ensures PrepareRow(Some(flat)) == Ok(Rows.State(flat, flat))
  {
    NestRowDotFree(flat);
  }

  // ---------------------------------------------------------------------------
  // remap_columns

  /**
   * The keys of `row.nested[STAGING][INPUT]`, which an empty pick list stands for: a missing
   * level raises KeyError, indexing a non-dictionary TypeError, and `.keys()` of one AttributeError.
   */
  function InputKeys(nested: ODict): Result<seq<string>> {
    match Get<Value>(nested, Lookup.Staging)
    case None => Err(KeyError(Lookup.Staging))
    case Some(Obj(staging)) =>
      (match Get<Value>(staging, Lookup.Input)
       case None => Err(KeyError(Lookup.Input))
       case Some(Obj(input)) => Ok(Keys(input))
       case Some(_) => Err(AttributeError))
    case Some(_) => Err(TypeError)
  }

  /** One pick per key, each copying the key onto itself. */
  function IdentityPicks(keys: seq<string>): (r: seq<PickConfig>)
    ensures |r| == |keys| && forall i :: 0 <= i < |keys| ==> r[i] == PickConfig(keys[i], keys[i])
  {
    seq(|keys|, i requires 0 <= i < |keys| => PickConfig(keys[i], keys[i]))
  }

  /** The first loop of `remap_columns`: each source found in the nested view is expanded at its target. */
  function PickInto(nested: ODict, acc: ODict, picks: seq<PickConfig>): (ODict, Outcome)
    decreases |picks|
  {
    if picks == [] then (acc, Pass)
    else
      match Lookup.Search(nested, picks[0].source)
      case None => PickInto(nested, acc, picks[1..])
      case Some(v) =>
        var (acc', o) := FieldOps.FlatWrite(acc, picks[0].target, v, 0);
        if o.Fail? then (acc', o) else PickInto(nested, acc', picks[1..])
  }

  /**
   * One turn of the second loop. The `picked` list holds found flags, not keys, so its test
   * never skips a key; a key already written is skipped, a staging key is copied as it is,
   * and any other key moves to `staging.<key>`.
   */
  function CopyEntry(acc: ODict, e: (string, Value)): ODict {
    if HasKey(acc, e.0) then acc
    else if Strings.StartsWith(e.0, Lookup.Staging + ".") then Put(acc, e.0, e.1)
    else Put(acc, StagingKey(e.0), e.1)
  }

  /** The second loop of `remap_columns`, over the old flat entries in order. */
  function CopyRest(acc: ODict, flat: ODict): ODict
    decreases |flat|
  {
    if flat == [] then acc else CopyRest(CopyEntry(acc, flat[0]), flat[1..])
  }

  /**
   * `remap_columns(row, list_config)`. Nothing changes until the new flat view is complete;
   * it is assigned before `nest_row` runs, so a TypeError there leaves the new flat view
   * beside the old nested one.
   */
  function Remap(s: Rows.State, picks: seq<PickConfig>): (Rows.State, Outcome) {
    var chosen := if picks != [] then Ok(picks)
                  else match InputKeys(s.nested)
                       case Ok(keys) => Ok(IdentityPicks(keys))
                       case Err(e) => Err(e);
    match chosen
    case Err(e) => (s, Fail(e))
    case Ok(list) =>
      var (acc, o) := PickInto(s.nested, [], list);
      if o.Fail? then (s, o)
      else
        var f := CopyRest(acc, s.flat);
        match NestRow(f)
        case Err(e) => (Rows.State(f, s.nested), Fail(e))
        case Ok(n) => (Rows.State(f, n), Pass)
  }

  method RemapColumns(row: Rows.Row, picks: seq<PickConfig>) returns (o: Outcome)
    modifies row
    ensures (row.Snapshot(), o) == Remap(old(row.Snapshot()), picks)
  {
    var list := picks;
    if |list| == 0 {
      var keys := InputKeys(row.nested);
      if keys.Err? {
        return Fail(keys.error);
      }
      list := DefaultPicks(keys.value);
    }
    var acc;
    acc, o := PickColumns(row.nested, list);
    if o.Fail? {
      return;
    }
    var out := CopyColumns(acc, row.flat);
    row.flat := out;
    var n := NestRow(out);
    if n.Err? {
      return Fail(n.error);
    }
    row.nested := n.value;
  }

  /** The loop of `remap_columns` that builds the identity picks. */
  method DefaultPicks(keys: seq<string>) returns (list: seq<PickConfig>)
    ensures list == IdentityPicks(keys)
  {
    list := [];
    for i := 0 to |keys|
      invariant list == IdentityPicks(keys[..i])
    {
      list := list + [PickConfig(keys[i], keys[i])];
      assert list == IdentityPicks(keys[..i + 1]);
    }
    assert keys[..|keys|] == keys;
  }

  /** The pick loop of `remap_columns`. */
  method PickColumns(nested: ODict, list: seq<PickConfig>) returns (acc: ODict, o: Outcome)
    ensures (acc, o) == PickInto(nested, [], list)
  {
    acc := [];
    for i := 0 to |list|
      invariant PickInto(nested, acc, list[i..]) == PickInto(nested, [], list)
    {
      assert list[i..][1..] == list[i + 1..];
      var found := Lookup.Search(nested, list[i].source);
      if found.Some? {
        var w;
        w, o := FieldOps.SetFlatFieldValue(acc, list[i].target, found.value, 0);
        if o.Fail? {
          return w, o;
        }
        acc := w;
      }
    }
    assert list[|list|..] == [];
    o := Pass;
  }

  /** The copy loop of `remap_columns`. */
  method CopyColumns(acc: ODict, flat: ODict) returns (out: ODict)
    ensures out == CopyRest(acc, flat)
  {
    out := acc;
    for j := 0 to |flat|
      invariant CopyRest(out, flat[j..]) == CopyRest(acc, flat)
    {
      assert flat[j..][1..] == flat[j + 1..];
      out := CopyEntry(out, flat[j]);
    }
    assert flat[|flat|..] == [];
  }

  /** Every found pick's leaves, in pick order. */
  function PickLeaves(nested: ODict, picks: seq<PickConfig>): seq<(string, Value)>
    decreases |picks|
  {
    if picks == [] then []
    else
      (match Lookup.Search(nested, picks[0].source)
       case None => []
       case Some(v) => FieldOps.Leaves(picks[0].target, v))
      + PickLeaves(nested, picks[1..])
  }

  /** When no pick trips the depth guard, the picked part of the new flat view is every found pick's leaves written in order. */
  lemma {:induction false} PickIntoLeaves(nested: ODict, acc: ODict, picks: seq<PickConfig>)
    requires PickInto(nested, acc, picks).1 == Pass
    ensures PickInto(nested, acc, picks).0 == FieldOps.PutAll(acc, PickLeaves(nested, picks))
    decreases |picks|, 1
  {
    if picks != [] {
      var rest := PickLeaves(nested, picks[1..]);
      var found := Lookup.Search(nested, picks[0].source);
      if found.None? {
        assert PickInto(nested, acc, picks) == PickInto(nested, acc, picks[1..]);
        PickIntoLeaves(nested, acc, picks[1..]);
        assert PickLeaves(nested, picks) == rest;
      } else {
        PickStep(nested, acc, picks);
      }
    }
  }

  lemma PickStep(nested: ODict, acc: ODict, picks: seq<PickConfig>)
    requires picks != [] && Lookup.Search(nested, picks[0].source).Some?
    requires PickInto(nested, acc, picks).1 == Pass
    ensures PickInto(nested, acc, picks).0 == FieldOps.PutAll(acc, PickLeaves(nested, picks))
    decreases |picks|, 0
  {
    var v := Lookup.Search(nested, picks[0].source).value;
    var rest := PickLeaves(nested, picks[1..]);
    var leaves := FieldOps.Leaves(picks[0].target, v);
    var w := FieldOps.FlatWrite(acc, picks[0].target, v, 0);
    assert w.1 == Pass;
    assert PickInto(nested, acc, picks) == PickInto(nested, w.0, picks[1..]);
    assert PickLeaves(nested, picks) == leaves + rest;
    FieldOps.FlatWriteLeaves(acc, picks[0].target, v, 0);
    PickIntoLeaves(nested, w.0, picks[1..]);
    FieldOps.PutAllAppend(acc, leaves, rest);
  }

  /** A flat key written by the copy loop that was not there before lies in the staging area. */
  lemma {:induction false} CopyRestStaging(acc: ODict, flat: ODict)
    ensures var r := CopyRest(acc, flat);
            forall i :: 0 <= i < |r| ==> HasKey(acc, r[i].0) || Strings.StartsWith(r[i].0, Lookup.Staging + ".")
    decreases |flat|
  {
    if flat != [] {
      var acc' := CopyEntry(acc, flat[0]);
      CopyRestStaging(acc', flat[1..]);
      var r := CopyRest(acc, flat);
      assert r == CopyRest(acc', flat[1..]);
      forall i | 0 <= i < |r| ensures HasKey(acc, r[i].0) || Strings.StartsWith(r[i].0, Lookup.Staging + ".") {
        if HasKey(acc', r[i].0) {
          CopyEntryKeys(acc, flat[0], r[i].0);
        }
      }
    }
  }

  /** A key that one copied entry adds lies in the staging area. */
  lemma CopyEntryKeys(acc: ODict, e: (string, Value), k: string)
    requires HasKey(CopyEntry(acc, e), k)
    ensures HasKey(acc, k) || Strings.StartsWith(k, Lookup.Staging + ".")
  {
    if !HasKey(acc, e.0) {
      var key := if Strings.StartsWith(e.0, Lookup.Staging + ".") then e.0 else StagingKey(e.0);
      assert CopyEntry(acc, e) == Put(acc, key, e.1);
      PutKeys(acc, key, e.1, k);
      if k == key && key == StagingKey(e.0) {
        StagingKeyStarts(e.0);
      }
    }
  }

  /** Every staging key starts with the staging prefix. */
  lemma StagingKeyStarts(t: string)
    ensures Strings.StartsWith(StagingKey(t), Lookup.Staging + ".")
  {
    var p := Lookup.Staging + ".";
    assert (p + t)[..|p|] == p;
  }

  /** The copy loop never changes a flat key outside the staging area. */
  lemma {:induction false} CopyRestKeepsOutside(acc: ODict, flat: ODict, k: string)
    requires !Strings.StartsWith(k, Lookup.Staging + ".")
    ensures Get(CopyRest(acc, flat), k) == Get(acc, k)
    decreases |flat|
  {
    if flat != [] {
      var e := flat[0];
      var sk := StagingKey(e.0);
      StagingKeyStarts(e.0);
      if !HasKey(acc, e.0) {
        if Strings.StartsWith(e.0, Lookup.Staging + ".") {
          PutOther(acc, e.0, e.1, k);
        } else {
          PutOther(acc, sk, e.1, k);
        }
      }
      CopyRestKeepsOutside(CopyEntry(acc, e), flat[1..], k);
    }
  }

  /** Every old flat key survives the copy loop, as itself or moved under the staging area. */
  lemma {:induction false} CopyRestCovers(acc: ODict, flat: ODict)
    ensures var r := CopyRest(acc, flat);
            forall i :: 0 <= i < |flat| ==> HasKey(r, flat[i].0) || HasKey(r, StagingKey(flat[i].0))
    ensures forall k :: HasKey(acc, k) ==> HasKey(CopyRest(acc, flat), k)
    decreases |flat|
  {
    if flat != [] {
      var e, rest := flat[0], flat[1..];
      var acc' := CopyEntry(acc, e);
      var r := CopyRest(acc', rest);
      assert CopyRest(acc, flat) == r;
      CopyRestCovers(acc', rest);
      assert HasKey(acc', e.0) || HasKey(acc', StagingKey(e.0));
      assert forall k :: HasKey(acc, k) ==> HasKey(acc', k);
      forall i | 0 <= i < |flat| ensures HasKey(r, flat[i].0) || HasKey(r, StagingKey(flat[i].0)) {
        if i > 0 {
          assert flat[i] == rest[i - 1];
        }
      }
    }
  }
}

/**
 * The `assign` action of the later versions: copy a searched column into the staging
 * area, with an optional default for a missing column and an optional demand that the
 * column be present and truthy.
 */
module AssignAction {

  import opened Wrappers
  import opened Values
  import NestedField
  import Lookup
  import Rows
  import Actions

  /** `AssignConfig`; `required` holds the truthiness of the option it was set from. */
  datatype AssignConfig = AssignConfig(target: string, source: string, assignDefault: bool, defaultValue: Value, required: bool)

  /**
   * `assign(row, config)`: `row.search(source)`, then `row.staging[target] = value`. A required
   * column that is missing or falsy raises ValueError before anything is written; a missing
   * column is replaced by the default when there is one and otherwise writes nothing.
   */
  function ApplyAssign(s: Rows.State, c: AssignConfig): (Rows.State, Outcome) {
    var found := Lookup.Search(s.nested, c.source);
    if c.required && (found.None? || !Truthy(found.value)) then (s, Fail(ValueError(RequiredMissing(c.source))))
    else if found.Some? then Rows.Assign(s, Actions.StagingKey(c.target), found.value)
    else if c.assignDefault then Rows.Assign(s, Actions.StagingKey(c.target), c.defaultValue)
    else (s, Pass)
  }

  method Assign(row: Rows.Row, c: AssignConfig) returns (o: Outcome)
    modifies row
    ensures (row.Snapshot(), o) == ApplyAssign(old(row.Snapshot()), c)
  {
    var found := Lookup.Search(row.nested, c.source);
    if c.required && (found.None? || !Truthy(found.value)) {
      return Fail(ValueError(RequiredMissing(c.source)));
    }
    if found.Some? {
      o := row.SetItem(Actions.StagingKey(c.target), found.value);
    } else if c.assignDefault {
      o := row.SetItem(Actions.StagingKey(c.target), c.defaultValue);
    } else {
      o := Pass;
    }
  }

  /** The required check raises exactly when a required column is missing or falsy, and then nothing is written. */
  lemma AssignRequired(s: Rows.State, c: AssignConfig)
    ensures var found := Lookup.Search(s.nested, c.source);
            ApplyAssign(s, c).1 == Fail(ValueError(RequiredMissing(c.source)))
            <==> c.required && (found.None? || !Truthy(found.value))
    ensures ApplyAssign(s, c).1 == Fail(ValueError(RequiredMissing(c.source))) ==> ApplyAssign(s, c).0 == s
  {
    var found := Lookup.Search(s.nested, c.source);
    var key := Actions.StagingKey(c.target);
    if found.Some? {
      Rows.AssignFails(s, key, found.value);
    }
    Rows.AssignFails(s, key, c.defaultValue);
  }

  /**
   * A value that is written can be searched again under its target: the found value when the
   * column is there, the default when it is missing and a default is set.
   */
  lemma AssignStores(s: Rows.State, c: AssignConfig)
    requires ApplyAssign(s, c).1 == Pass
    requires NestedField.Writable(s.nested, Actions.StagingKey(c.target))
    requires NestedField.NoDottedShadow(s.nested, Actions.StagingKey(c.target))
    ensures var found := Lookup.Search(s.nested, c.source);
            var after := ApplyAssign(s, c).0.nested;
            && (found.Some? ==> Lookup.Search(after, c.target) == found)
            && (found.None? && c.assignDefault ==> Lookup.Search(after, c.target) == Some(c.defaultValue))
  {
    var found := Lookup.Search(s.nested, c.source);
    var key := Actions.StagingKey(c.target);
    if found.Some? {
      Rows.AssignReadsBack(s, key, found.value);
    } else if c.assignDefault {
      Rows.AssignReadsBack(s, key, c.defaultValue);
    }
  }

  /** A missing column without a default leaves the row unchanged, unless it is required. */
  lemma AssignMissingNoDefault(s: Rows.State, c: AssignConfig)
    requires Lookup.Search(s.nested, c.source).None? && !c.assignDefault
    ensures ApplyAssign(s, c) == if c.required then (s, Fail(ValueError(RequiredMissing(c.source)))) else (s, Pass)
  {
  }

  /** The default of a `default=` option; the texts None, none, Null and null stand for None. */
  function DefaultOf(v: Actions.OptVal): (r: Value)
    ensures v.Text? && v.s !in {"None", "none", "Null", "null"} ==> r == Str(v.s)
    ensures v.Text? && v.s in {"None", "none", "Null", "null"} ==> r == Null
  {
    match v
    case Text(s) => if s in ["None", "none", "Null", "null"] then Null else Str(s)
    case Flag => Bool(true)
  }

  /** Python's truthiness of an option value, as `if config.required:` tests it. */
  predicate OptionTruthy(v: Actions.OptVal) {
    match v
    case Flag => true
    case Text(s) => s != ""
  }

  /** `setup_assign_action(config, target, source, options)`: exactly one config appended. */
  function SetupAssignAction(actions: seq<AssignConfig>, target: string, source: string, options: OMap<Actions.OptVal>): (r: seq<AssignConfig>)
    ensures |r| == |actions| + 1 && r[..|actions|] == actions
    ensures r[|actions|].target == target && r[|actions|].source == source
    ensures r[|actions|].assignDefault <==> HasKey(options, "default")
    ensures !HasKey(options, "default") ==> r[|actions|].defaultValue == Null
    ensures r[|actions|].required <==> HasKey(options, "required") && OptionTruthy(Get(options, "required").value)
  {
    var assignDefault := HasKey(options, "default");
    var defaultValue := match Get(options, "default") case Some(v) => DefaultOf(v) case None => Null;
    var required := match Get(options, "required") case Some(v) => OptionTruthy(v) case None => false;
    actions + [AssignConfig(target, source, assignDefault, defaultValue, required)]
  }

  /** Any non-empty `required=` text turns the demand on, the text `false` included. */
  lemma RequiredFalseIsTrue(actions: seq<AssignConfig>, target: string, source: string)
    ensures SetupAssignAction(actions, target, source, [("required", Actions.Text("false"))])[|actions|].required
    ensures !SetupAssignAction(actions, target, source, [("required", Actions.Text(""))])[|actions|].required
  {
    var a: OMap<Actions.OptVal> := [("required", Actions.Text("false"))];
    var b: OMap<Actions.OptVal> := [("required", Actions.Text(""))];
    assert Keys(a)[0] == "required" && Keys(b)[0] == "required";
  }
}

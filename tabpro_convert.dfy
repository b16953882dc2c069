/**
 * The row pipeline of the later versions' `convert`: `assign_array`, and the steps every
 * loaded row goes through before it is pushed to the writer (ignore check, bookkeeping
 * stamp, arrays, actions, picks, staging strip). Loaders are sequences of rows; the writer
 * and the filtered-out list are output sequences.
 */
module TabproConvert {

  import opened Wrappers
  import opened Values
  import Strings
  import NestedField
  import FieldOps
  import Lookup
  import Rows
  import Actions

  /** The bookkeeping keys; like the staging key, they contain no dot. */
  const FileField := "__file__"
  const FileRowIndexField := "__file_row_index__"
  const RowIndexField := "__row_index__"

  // ---------------------------------------------------------------------------
  // assign_array

  /** `AssignArrayConfig`: a column to search and whether a miss may be left out. */
  datatype ArrayItem = ArrayItem(field: string, optional: bool)

  /** What one item adds to its array: a found value that is not None, else None unless the item is optional. */
  function Piece(found: Option<Value>, optional: bool): seq<Value> {
    if found.Some? && found.value != Null then [found.value]
    else if !optional then [Null]
    else []
  }

  /** The number of items that are not optional. */
  function Required(items: seq<ArrayItem>): nat
    decreases |items|
  {
    if items == [] then 0
    else Required(items[..|items| - 1]) + (if items[|items| - 1].optional then 0 else 1)
  }

  /** The search result for each item's column, in order. */
  function Searches(row: ODict, items: seq<ArrayItem>): (r: seq<Option<Value>>)
    ensures |r| == |items| && forall i :: 0 <= i < |items| ==> r[i] == Lookup.Search(row, items[i].field)
  {
    seq(|items|, i requires 0 <= i < |items| => Lookup.Search(row, items[i].field))
  }

  /** One piece per item from what its search found, in declared order. */
  function Assemble(found: seq<Option<Value>>, items: seq<ArrayItem>): (r: seq<Value>)
    requires |found| == |items|
    ensures Required(items) <= |r| <= |items|
    decreases |items|
  {
    if items == [] then []
    else Assemble(found[..|found| - 1], items[..|items| - 1]) + Piece(found[|found| - 1], items[|items| - 1].optional)
  }

  /** The array built for one key. */
  function ArrayOf(row: ODict, items: seq<ArrayItem>): (r: seq<Value>)
    ensures Required(items) <= |r| <= |items|
  {
    Assemble(Searches(row, items), items)
  }

  /**
   * `assign_array(row, dict_config)`: a copy of `row` with each key's array at `staging.<key>`.
   * Every array is searched in the original row, not in the copy being filled.
   */
  function ArraysOver(row: ODict, config: OMap<seq<ArrayItem>>): ODict
    decreases |config|
  {
    if config == [] then row
    else
      var last := config[|config| - 1];
      Put(ArraysOver(row, config[..|config| - 1]), Actions.StagingKey(last.0), List(ArrayOf(row, last.1)))
  }

  method AssignArray(row: ODict, config: OMap<seq<ArrayItem>>) returns (newRow: ODict)
    ensures newRow == ArraysOver(row, config)
  {
    newRow := row;
    for k := 0 to |config|
      invariant newRow == ArraysOver(row, config[..k])
    {
      var (key, items) := config[k];
      var values := BuildArray(row, items);
      assert config[..k + 1][..k] == config[..k];
      newRow := Put(newRow, Actions.StagingKey(key), List(values));
    }
    assert config[..|config|] == config;
  }

  /** The inner loop of `assign_array`: one key's array, item by item. */
  method BuildArray(row: ODict, items: seq<ArrayItem>) returns (values: seq<Value>)
    ensures values == ArrayOf(row, items)
  {
    values := [];
    ghost var searched := Searches(row, items);
    for j := 0 to |items|
      invariant values == Assemble(searched[..j], items[..j])
    {
      var found := Lookup.Search(row, items[j].field);
      AssembleSnoc(searched, items, j);
      if found.Some? && found.value != Null {
        values := values + [found.value];
      } else if !items[j].optional {
        values := values + [Null];
      }
    }
    assert items[..|items|] == items && searched[..|items|] == searched;
  }

  /** One more item adds its piece at the end. */
  lemma AssembleSnoc(found: seq<Option<Value>>, items: seq<ArrayItem>, j: nat)
    requires |found| == |items| && j < |items|
    ensures Assemble(found[..j + 1], items[..j + 1]) == Assemble(found[..j], items[..j]) + Piece(found[j], items[j].optional)
  {
    assert items[..j + 1][..j] == items[..j];
    assert found[..j + 1][..j] == found[..j];
  }

  /** With no optional item, the array has one entry per item: the value found, or None. */
  lemma {:induction false} AssembleRequired(found: seq<Option<Value>>, items: seq<ArrayItem>)
    requires |found| == |items| && forall i :: 0 <= i < |items| ==> !items[i].optional
    ensures |Assemble(found, items)| == |items|
    ensures forall i :: 0 <= i < |items| ==> Assemble(found, items)[i] == found[i].GetOr(Null)
    decreases |items|
  {
    if items != [] {
      var n := |items| - 1;
      assert forall i :: 0 <= i < n ==> items[..n][i] == items[i];
      AssembleRequired(found[..n], items[..n]);
      var a := Assemble(found[..n], items[..n]);
      var r := Assemble(found, items);
      assert r == a + [found[n].GetOr(Null)] by {
        RequiredPiece(found[n]);
      }
      forall i | 0 <= i < |items| ensures r[i] == found[i].GetOr(Null) {
        if i < n {
          assert r[i] == a[i] && found[..n][i] == found[i];
        }
      }
    }
  }

  /** An item that is not optional adds exactly one entry: the value found, or None. */
  lemma RequiredPiece(found: Option<Value>)
    ensures Piece(found, false) == [found.GetOr(Null)]
  {
  }

  /** With only optional items, the array holds found values that are not None, nothing else. */
  lemma {:induction false} AssembleOptional(found: seq<Option<Value>>, items: seq<ArrayItem>)
    requires |found| == |items| && forall i :: 0 <= i < |items| ==> items[i].optional
    ensures forall j :: 0 <= j < |Assemble(found, items)| ==>
              Assemble(found, items)[j] != Null && exists i :: 0 <= i < |items| && found[i] == Some(Assemble(found, items)[j])
    decreases |items|
  {
    if items != [] {
      var n := |items| - 1;
      assert forall i :: 0 <= i < n ==> items[..n][i] == items[i] && found[..n][i] == found[i];
      AssembleOptional(found[..n], items[..n]);
      var a := Assemble(found[..n], items[..n]);
      var r := Assemble(found, items);
      forall j | 0 <= j < |r|
        ensures r[j] != Null && exists i :: 0 <= i < |items| && found[i] == Some(r[j])
      {
        if j >= |a| {
          assert found[n] == Some(r[j]);
        } else {
          var i :| 0 <= i < n && found[..n][i] == Some(a[j]);
          assert found[i] == Some(r[j]);
        }
      }
    }
  }

  /** With no optional item, each entry is what its column's search found, or None. */
  lemma ArrayOfRequiredItems(row: ODict, items: seq<ArrayItem>)
    requires forall i :: 0 <= i < |items| ==> !items[i].optional
    ensures |ArrayOf(row, items)| == |items|
    ensures forall i :: 0 <= i < |items| ==> ArrayOf(row, items)[i] == Lookup.Search(row, items[i].field).GetOr(Null)
  {
    AssembleRequired(Searches(row, items), items);
  }

  /** With only optional items, each entry is a value found for some item, never None. */
  lemma ArrayOfOptionalItems(row: ODict, items: seq<ArrayItem>)
    requires forall i :: 0 <= i < |items| ==> items[i].optional
    ensures forall j :: 0 <= j < |ArrayOf(row, items)| ==>
              ArrayOf(row, items)[j] != Null && exists i :: 0 <= i < |items| && Lookup.Search(row, items[i].field) == Some(ArrayOf(row, items)[j])
  {
    var found := Searches(row, items);
    AssembleOptional(found, items);
    var r := ArrayOf(row, items);
    forall j | 0 <= j < |r|
      ensures exists i :: 0 <= i < |items| && Lookup.Search(row, items[i].field) == Some(r[j])
    {
      var i :| 0 <= i < |items| && found[i] == Some(r[j]);
      assert Lookup.Search(row, items[i].field) == Some(r[j]);
    }
  }

  lemma StagingKeyInjective(a: string, b: string)
    requires Actions.StagingKey(a) == Actions.StagingKey(b)
    ensures a == b
  {
    var p := Lookup.Staging + ".";
    assert Actions.StagingKey(a) == p + a && Actions.StagingKey(b) == p + b;
    assert a == (p + a)[|p|..];
  }

  /** Each configured key, configured once, holds its array under the staging area. */
  lemma {:induction false} ArraysOverStores(row: ODict, config: OMap<seq<ArrayItem>>, j: nat)
    requires Distinct(config) && j < |config|
    ensures Get(ArraysOver(row, config), Actions.StagingKey(config[j].0)) == Some(List(ArrayOf(row, config[j].1)))
    decreases |config|
  {
    var n := |config| - 1;
    if j < n {
      var init := config[..n];
      assert init[j] == config[j];
      PrefixDistinct(config, n);
      ArraysOverStores(row, init, j);
      ArraysOverStep(row, config, j);
    } else {
      ArraysOverLast(row, config, j);
    }
  }

  /** The last configured key holds its array. */
  lemma ArraysOverLast(row: ODict, config: OMap<seq<ArrayItem>>, j: nat)
    requires j == |config| - 1
    ensures Get(ArraysOver(row, config), Actions.StagingKey(config[j].0)) == Some(List(ArrayOf(row, config[j].1)))
  {
    var last := config[j];
    var value := List(ArrayOf(row, last.1));
    assert ArraysOver(row, config) == Put(ArraysOver(row, config[..|config| - 1]), Actions.StagingKey(last.0), value);
  }

  /** A later key, distinct from key `j`, does not disturb its array. */
  lemma ArraysOverStep(row: ODict, config: OMap<seq<ArrayItem>>, j: nat)
    requires Distinct(config) && j < |config| - 1
    requires Get(ArraysOver(row, config[..|config| - 1]), Actions.StagingKey(config[j].0)) == Some(List(ArrayOf(row, config[j].1)))
    ensures Get(ArraysOver(row, config), Actions.StagingKey(config[j].0)) == Some(List(ArrayOf(row, config[j].1)))
  {
    var n := |config| - 1;
    var prev := ArraysOver(row, config[..n]);
    var lastKey, lastValue := Actions.StagingKey(config[n].0), List(ArrayOf(row, config[n].1));
    assert ArraysOver(row, config) == Put(prev, lastKey, lastValue);
    var k := Actions.StagingKey(config[j].0);
    assert config[j].0 != config[n].0;
    if k == lastKey {
      StagingKeyInjective(config[j].0, config[n].0);
      assert false;
    }
    PutOther(prev, lastKey, lastValue, k);
  }

  /** Every other key of the row keeps its value. */
  lemma {:induction false} ArraysOverFrame(row: ODict, config: OMap<seq<ArrayItem>>, k: string)
    requires forall j :: 0 <= j < |config| ==> Actions.StagingKey(config[j].0) != k
    ensures Get(ArraysOver(row, config), k) == Get(row, k)
    decreases |config|
  {
    if config != [] {
      var init, last := config[..|config| - 1], config[|config| - 1];
      assert forall j :: 0 <= j < |init| ==> init[j] == config[j];
      ArraysOverFrame(row, init, k);
      PutOther(ArraysOver(row, init), Actions.StagingKey(last.0), List(ArrayOf(row, last.1)), k);
    }
  }

  /** The copy stays a flat row: distinct keys and no dictionary values. */
  lemma {:induction false} ArraysOverKeepsFlat(row: ODict, config: OMap<seq<ArrayItem>>)
    requires Rows.Flat(row)
    ensures Rows.Flat(ArraysOver(row, config))
    decreases |config|
  {
    if config != [] {
      var init, last := config[..|config| - 1], config[|config| - 1];
      ArraysOverKeepsFlat(row, init);
      PutDistinct(ArraysOver(row, init), Actions.StagingKey(last.0), List(ArrayOf(row, last.1)));
      FieldOps.PutNoObjects(ArraysOver(row, init), Actions.StagingKey(last.0), List(ArrayOf(row, last.1)));
    }
  }

  // ---------------------------------------------------------------------------
  // The per-row steps of convert

  /** `f'{input_file}:{index}'` */
  function Token(file: string, index: int): string {
    file + ":" + Strings.IntToString(index)
  }

  /** The ignore set names the row by its full path or by its file name. */
  predicate Ignored(ignore: set<string>, file: string, index: int) {
    Token(file, index) in ignore || Token(Strings.Basename(file), index) in ignore
  }

  /** `STAGING_FIELD in row` */
  predicate HasStaging(s: Rows.State) {
    Lookup.Resolve(Obj(s.nested), Lookup.Staging).Some?
  }

  /** The four bookkeeping writes, each `row[key] = value`; the first exception stops them. */
  function Stamp(s: Rows.State, file: string, index: int, input: ODict): (Rows.State, Outcome) {
    var (s1, o1) := Rows.Assign(s, FileField, Str(file));
    if o1.Fail? then (s1, o1)
    else
      var (s2, o2) := Rows.Assign(s1, FileRowIndexField, Str(Token(file, index)));
      if o2.Fail? then (s2, o2)
      else
        var (s3, o3) := Rows.Assign(s2, RowIndexField, Int(index));
        if o3.Fail? then (s3, o3)
        else Rows.Assign(s3, Lookup.Input, Obj(input))
  }

  method StampRow(row: Rows.Row, file: string, index: int, input: ODict) returns (o: Outcome)
    modifies row
    ensures (row.Snapshot(), o) == Stamp(old(row.Snapshot()), file, index, input)
  {
    o := row.SetItem(FileField, Str(file));
    if o.Fail? {
      return;
    }
    o := row.SetItem(FileRowIndexField, Str(Token(file, index)));
    if o.Fail? {
      return;
    }
    o := row.SetItem(RowIndexField, Int(index));
    if o.Fail? {
      return;
    }
    o := row.SetItem(Lookup.Input, Obj(input));
  }

  /** A write that passes stores its value at its key and leaves the paths that part from it alone. */
  lemma AssignFrame(s: Rows.State, k: string, v: Value, q: string)
    requires Rows.Assign(s, k, v).1.Pass?
    ensures NestedField.Descend(Rows.Assign(s, k, v).0.nested, k) == Some(v)
    ensures NestedField.Diverges(k, q) ==> NestedField.Descend(Rows.Assign(s, k, v).0.nested, q) == NestedField.Descend(s.nested, q)
  {
    if NestedField.Diverges(k, q) {
      NestedField.SetNestedFrame(s.nested, k, q, v);
    }
  }

  /** Dot-free keys that differ part at once. */
  lemma DivergesTop(p: string, q: string)
    requires '.' !in p && '.' !in q && p != q
    ensures NestedField.Diverges(p, q)
  {
    assert Strings.SplitOnce(p, '.') == (p, None);
    assert Strings.SplitOnce(q, '.') == (q, None);
  }

  /** A dot-free key is read by a plain lookup. */
  lemma DescendTop(d: ODict, k: string)
    requires '.' !in k
    ensures NestedField.Descend(d, k) == Get(d, k)
  {
    assert Strings.SplitOnce(k, '.') == (k, None);
  }

  lemma TopKeys()
    ensures '.' !in FileField && '.' !in FileRowIndexField && '.' !in RowIndexField && '.' !in Lookup.Input
    ensures FileField != FileRowIndexField && FileField != RowIndexField && FileField != Lookup.Input
    ensures FileRowIndexField != RowIndexField && FileRowIndexField != Lookup.Input && RowIndexField != Lookup.Input
  {
    assert FileField[2] != FileRowIndexField[2] || |FileField| != |FileRowIndexField|;
    assert FileField[2] != RowIndexField[2] && FileField[2] != Lookup.Input[2];
    assert FileRowIndexField[2] != RowIndexField[2] && FileRowIndexField[2] != Lookup.Input[2];
    assert RowIndexField[2] != Lookup.Input[2];
  }

  /** After a stamp that passes, the row holds its file, its token, its index and the input snapshot. */
  lemma StampWrites(s: Rows.State, file: string, index: int, input: ODict)
    requires Stamp(s, file, index, input).1.Pass?
    ensures var n := Stamp(s, file, index, input).0.nested;
            && Get(n, FileField) == Some(Str(file))
            && Get(n, FileRowIndexField) == Some(Str(Token(file, index)))
            && Get(n, RowIndexField) == Some(Int(index))
            && Get(n, Lookup.Input) == Some(Obj(input))
  {
    TopKeys();
    DivergesTop(FileField, FileRowIndexField);
    DivergesTop(RowIndexField, FileField);
    DivergesTop(RowIndexField, FileRowIndexField);
    DivergesTop(Lookup.Input, FileField);
    DivergesTop(Lookup.Input, FileRowIndexField);
    DivergesTop(Lookup.Input, RowIndexField);
    var (s1, _) := Rows.Assign(s, FileField, Str(file));
    var (s2, _) := Rows.Assign(s1, FileRowIndexField, Str(Token(file, index)));
    var (s3, _) := Rows.Assign(s2, RowIndexField, Int(index));
    var n := Stamp(s, file, index, input).0.nested;
    DescendTop(n, FileField);
    DescendTop(n, FileRowIndexField);
    DescendTop(n, RowIndexField);
    DescendTop(n, Lookup.Input);
    AssignFrame(s, FileField, Str(file), FileRowIndexField);
    AssignFrame(s1, FileRowIndexField, Str(Token(file, index)), FileField);
    AssignFrame(s2, RowIndexField, Int(index), FileField);
    AssignFrame(s2, RowIndexField, Int(index), FileRowIndexField);
    AssignFrame(s3, Lookup.Input, Obj(input), FileField);
    AssignFrame(s3, Lookup.Input, Obj(input), FileRowIndexField);
    AssignFrame(s3, Lookup.Input, Obj(input), RowIndexField);
  }

  /** The stamp keeps the flat view flat. */
  lemma StampKeepsFlat(s: Rows.State, file: string, index: int, input: ODict)
    requires Rows.Flat(s.flat)
    ensures Rows.Flat(Stamp(s, file, index, input).0.flat)
  {
    var (s1, _) := Rows.Assign(s, FileField, Str(file));
    var (s2, _) := Rows.Assign(s1, FileRowIndexField, Str(Token(file, index)));
    var (s3, _) := Rows.Assign(s2, RowIndexField, Int(index));
    Rows.AssignKeepsFlat(s, FileField, Str(file));
    Rows.AssignKeepsFlat(s1, FileRowIndexField, Str(Token(file, index)));
    Rows.AssignKeepsFlat(s2, RowIndexField, Int(index));
    Rows.AssignKeepsFlat(s3, Lookup.Input, Obj(input));
  }

  /**
   * What the driver is configured with. `pipeline` is `do_actions` when actions are configured:
   * it gives the row afterwards and whether a row came back (a None result drops the row).
   */
  datatype Settings = Settings(
    ignore: set<string>,
    arrays: OMap<seq<ArrayItem>>,
    pipeline: Option<Rows.State -> Result<(Rows.State, bool)>>,
    picks: seq<Actions.PickConfig>,
    debug: bool,
    collectFiltered: bool)

  /** A pipeline that turns flat rows into flat rows, as one over Python dictionaries does. */
  ghost predicate KeepsFlat(p: Option<Rows.State -> Result<(Rows.State, bool)>>) {
    p.Some? ==> forall s: Rows.State :: Rows.Flat(s.flat) && p.value(s).Ok? ==> Rows.Flat(p.value(s).value.0.flat)
  }

  /** How one loaded row ends. */
  datatype Verdict = Skipped | Dropped(flat: ODict) | Written(row: Rows.State) | Raised(error: Error)

  /** `pop_row_staging(row)` unless debug output is on. */
  function StripStaging(debug: bool, s: Rows.State): Result<Rows.State> {
    if debug then Ok(s)
    else
      var (s', v) := Actions.PopRow(s, Lookup.Staging, Null);
      if v.Err? then Err(v.error) else Ok(s')
  }

  /** The clone, the stamp when there is no staging area yet, and the arrays. */
  function Prepare(cfg: Settings, file: string, index: int, s: Rows.State): Result<Rows.State> {
    var (orig, oc) := Rows.Build(s.flat);
    if oc.Fail? then Err(oc.error)
    else
      var (stamped, os) := if HasStaging(s) then (s, Pass) else Stamp(s, file, index, orig.nested);
      if os.Fail? then Err(os.error)
      else if cfg.arrays != [] then Ok(Rows.State(ArraysOver(stamped.flat, cfg.arrays), stamped.nested))
      else Ok(stamped)
  }

  /** The actions, and for a row that comes back the picks and the strip. */
  function Finish(cfg: Settings, s: Rows.State): (r: Verdict)
    ensures !r.Skipped?
  {
    var run: Result<(Rows.State, bool)> := match cfg.pipeline case None => Ok((s, true)) case Some(p) => p(s);
    match run
    case Err(e) => Raised(e)
    case Ok((after, keep)) =>
      if !keep then
        (match StripStaging(cfg.debug, after)
         case Err(e) => Raised(e)
         case Ok(f) => Dropped(f.flat))
      else
        var (picked, op) := if cfg.picks != [] then Actions.Remap(after, cfg.picks) else (after, Pass);
        if op.Fail? then Raised(op.error)
        else
          match StripStaging(cfg.debug, picked)
          case Err(e) => Raised(e)
          case Ok(f) => Written(f)
  }

  /** The body of the row loop of `convert`; a row is skipped exactly when it is in the ignore set. */
  function ProcessRow(cfg: Settings, file: string, index: int, s: Rows.State): (r: Verdict)
    ensures r.Skipped? <==> Ignored(cfg.ignore, file, index)
  {
    if Ignored(cfg.ignore, file, index) then Skipped
    else
      match Prepare(cfg, file, index, s)
      case Err(e) => Raised(e)
      case Ok(p) => Finish(cfg, p)
  }

  /** What the kept state of a full pick keeps flat. */
  lemma {:induction false} PickIntoKeepsFlat(nested: ODict, acc: ODict, picks: seq<Actions.PickConfig>)
    requires Rows.Flat(acc)
    ensures Rows.Flat(Actions.PickInto(nested, acc, picks).0)
    decreases |picks|
  {
    if picks != [] {
      var found := Lookup.Search(nested, picks[0].source);
      if found.Some? {
        FieldOps.FlatWriteKeepsFlat(acc, picks[0].target, found.value, 0);
        var (acc', o) := FieldOps.FlatWrite(acc, picks[0].target, found.value, 0);
        if o.Pass? {
          PickIntoKeepsFlat(nested, acc', picks[1..]);
        }
      } else {
        PickIntoKeepsFlat(nested, acc, picks[1..]);
      }
    }
  }

  lemma {:induction false} CopyRestKeepsFlat(acc: ODict, flat: ODict)
    requires Rows.Flat(acc) && NoObjects(flat)
    ensures Rows.Flat(Actions.CopyRest(acc, flat))
    decreases |flat|
  {
    if flat != [] {
      var e := flat[0];
      if !HasKey(acc, e.0) {
        var k := if Strings.StartsWith(e.0, Lookup.Staging + ".") then e.0 else Actions.StagingKey(e.0);
        PutDistinct(acc, k, e.1);
        FieldOps.PutNoObjects(acc, k, e.1);
      }
      assert forall i :: 0 <= i < |flat| - 1 ==> flat[1..][i] == flat[i + 1];
      CopyRestKeepsFlat(Actions.CopyEntry(acc, e), flat[1..]);
    }
  }

  /** `remap_columns` keeps the flat view flat. */
  lemma RemapKeepsFlat(s: Rows.State, picks: seq<Actions.PickConfig>)
    requires Rows.Flat(s.flat)
    ensures Rows.Flat(Actions.Remap(s, picks).0.flat)
  {
    var chosen := if picks != [] then Ok(picks)
                  else match Actions.InputKeys(s.nested)
                       case Ok(keys) => Ok(Actions.IdentityPicks(keys))
                       case Err(e) => Err(e);
    if chosen.Ok? {
      PickIntoKeepsFlat(s.nested, [], chosen.value);
      var (acc, o) := Actions.PickInto(s.nested, [], chosen.value);
      if o.Pass? {
        CopyRestKeepsFlat(acc, s.flat);
      }
    }
  }

  method HandleRow(cfg: Settings, file: string, index: int, s: Rows.State) returns (v: Verdict)
    requires Rows.Flat(s.flat) && KeepsFlat(cfg.pipeline)
    ensures v == ProcessRow(cfg, file, index, s)
  {
    if Token(file, index) in cfg.ignore || Token(Strings.Basename(file), index) in cfg.ignore {
      return Skipped;
    }
    var row := new Rows.Row.Of(s);
    var err := PrepareRow(cfg, file, index, row);
    if err.Some? {
      return Raised(err.value);
    }
    v := FinishRow(cfg, row);
  }

  /** The clone, the stamp and the arrays on the row itself; the error that stops them, if any. */
  method PrepareRow(cfg: Settings, file: string, index: int, row: Rows.Row) returns (err: Option<Error>)
    requires Rows.Flat(row.flat)
    modifies row
    ensures err.Some? ==> Prepare(cfg, file, index, old(row.Snapshot())) == Err(err.value)
    ensures err.None? ==> Prepare(cfg, file, index, old(row.Snapshot())) == Ok(row.Snapshot()) && Rows.Flat(row.flat)
  {
    ghost var s := row.Snapshot();
    var orig, oc := row.Clone();
    if oc.Fail? {
      return Some(oc.error);
    }
    var o := StampUnlessStaged(row, file, index, orig.nested);
    if o.Fail? {
      return Some(o.error);
    }
    ghost var stamped := row.Snapshot();
    assert Prepare(cfg, file, index, s)
           == if cfg.arrays != [] then Ok(Rows.State(ArraysOver(stamped.flat, cfg.arrays), stamped.nested)) else Ok(stamped);
    if |cfg.arrays| > 0 {
      ArraysOverKeepsFlat(row.flat, cfg.arrays);
      var f := AssignArray(row.flat, cfg.arrays);
      row.flat := f;
      assert row.Snapshot() == Rows.State(ArraysOver(stamped.flat, cfg.arrays), stamped.nested);
    }
    return None;
  }

  /** The bookkeeping stamp, skipped when the row already has a staging area. */
  method StampUnlessStaged(row: Rows.Row, file: string, index: int, input: ODict) returns (o: Outcome)
    requires Rows.Flat(row.flat)
    modifies row
    ensures (row.Snapshot(), o) == if HasStaging(old(row.Snapshot())) then (old(row.Snapshot()), Pass) else Stamp(old(row.Snapshot()), file, index, input)
    ensures o.Pass? ==> Rows.Flat(row.flat)
  {
    o := Pass;
    if !row.Contains(Lookup.Staging) {
      StampKeepsFlat(row.Snapshot(), file, index, input);
      o := StampRow(row, file, index, input);
    }
  }

  method FinishRow(cfg: Settings, row: Rows.Row) returns (v: Verdict)
    requires Rows.Flat(row.flat) && KeepsFlat(cfg.pipeline)
    modifies row
    ensures v == Finish(cfg, old(row.Snapshot()))
  {
    if cfg.pipeline.Some? {
      var r := cfg.pipeline.value(row.Snapshot());
      if r.Err? {
        return Raised(r.error);
      }
      var (after, keep) := r.value;
      row.flat, row.nested := after.flat, after.nested;
      if !keep {
        if !cfg.debug {
          var popped := Actions.PopRowStaging(row, Null);
          if popped.Err? {
            return Raised(popped.error);
          }
        }
        return Dropped(row.flat);
      }
    }
    if |cfg.picks| > 0 {
      RemapKeepsFlat(row.Snapshot(), cfg.picks);
      var o := Actions.RemapColumns(row, cfg.picks);
      if o.Fail? {
        return Raised(o.error);
      }
    }
    if !cfg.debug {
      var popped := Actions.PopRowStaging(row, Null);
      if popped.Err? {
        return Raised(popped.error);
      }
    }
    return Written(row.Snapshot());
  }

  /** A row that is pushed or dropped without debug output has no staging entries left in either view. */
  lemma StrippedHasNoStaging(s: Rows.State)
    requires StripStaging(false, s).Ok?
    ensures NoStaging(StripStaging(false, s).value)
  {
    Actions.PopRowClears(s, Lookup.Staging, Null);
    if NestedField.Descend(s.nested, Lookup.Staging).None? {
      FieldOps.PopMissingUnchanged(s.nested, Lookup.Staging, Null);
    }
  }

  /** Rows the writer receives, and dropped rows, carry no staging area unless debug output is on. */
  lemma VerdictStripped(cfg: Settings, file: string, index: int, s: Rows.State)
    requires !cfg.debug
    ensures ProcessRow(cfg, file, index, s).Written? ==> NoStaging(ProcessRow(cfg, file, index, s).row)
    ensures ProcessRow(cfg, file, index, s).Dropped? ==>
              var f := ProcessRow(cfg, file, index, s).flat;
              forall i :: 0 <= i < |f| ==> !FieldOps.Under(f[i].0, Lookup.Staging)
  {
    if !Ignored(cfg.ignore, file, index) && Prepare(cfg, file, index, s).Ok? {
      FinishStripped(cfg, Prepare(cfg, file, index, s).value);
    }
  }

  /** Without debug output, what is written or dropped after the pipeline has no staging area. */
  lemma FinishStripped(cfg: Settings, p: Rows.State)
    requires !cfg.debug
    ensures Finish(cfg, p).Written? ==> NoStaging(Finish(cfg, p).row)
    ensures Finish(cfg, p).Dropped? ==>
              var f := Finish(cfg, p).flat;
              forall i :: 0 <= i < |f| ==> !FieldOps.Under(f[i].0, Lookup.Staging)
  {
    var run: Result<(Rows.State, bool)> := match cfg.pipeline case None => Ok((p, true)) case Some(f) => f(p);
    if run.Ok? {
      var (after, keep) := run.value;
      if !keep {
        if StripStaging(false, after).Ok? {
          StrippedHasNoStaging(after);
        }
      } else {
        var (picked, op) := if cfg.picks != [] then Actions.Remap(after, cfg.picks) else (after, Pass);
        if op.Pass? && StripStaging(false, picked).Ok? {
          StrippedHasNoStaging(picked);
        }
      }
    }
  }


  // ---------------------------------------------------------------------------
  // The row loop over all input files

  /** The writer's rows, the collected filtered-out rows, and whether an exception ended the run. */
  datatype Run = Run(written: seq<Rows.State>, filtered: seq<ODict>, outcome: Outcome)

  /** One verdict added to a run: a dropped row is collected only when a filtered-out output is requested. */
  function Extend(cfg: Settings, run: Run, v: Verdict): Run {
    match v
    case Skipped => run
    case Dropped(f) => if cfg.collectFiltered then Run(run.written, run.filtered + [f], run.outcome) else run
    case Written(t) => Run(run.written + [t], run.filtered, run.outcome)
    case Raised(e) => Run(run.written, run.filtered, Fail(e))
  }

  /** Verdicts added to `start` in order; the first exception ends the run. */
  function Fold(cfg: Settings, start: Run, vs: seq<Verdict>): Run
    decreases |vs|
  {
    if vs == [] then start
    else
      var r := Fold(cfg, start, vs[..|vs| - 1]);
      if r.outcome.Fail? then r else Extend(cfg, r, vs[|vs| - 1])
  }

  /** The verdicts of one file's rows, numbered from 0 as `enumerate(loader)` does. */
  function Verdicts(cfg: Settings, file: string, rows: seq<Rows.State>): (vs: seq<Verdict>)
    ensures |vs| == |rows| && forall i :: 0 <= i < |rows| ==> vs[i] == ProcessRow(cfg, file, i, rows[i])
  {
    seq(|rows|, i requires 0 <= i < |rows| => ProcessRow(cfg, file, i, rows[i]))
  }

  /** `convert` over its input files, each given as its path and its loaded rows. */
  function ConvertRun(cfg: Settings, files: seq<(string, seq<Rows.State>)>): Run
    decreases |files|
  {
    if files == [] then Run([], [], Pass)
    else
      var last := files[|files| - 1];
      Fold(cfg, ConvertRun(cfg, files[..|files| - 1]), Verdicts(cfg, last.0, last.1))
  }

  /** Every loaded row is a flat row, as `Row.from_dict` of a dictionary of texts gives. */
  predicate FlatInputs(files: seq<(string, seq<Rows.State>)>) {
    forall f, i :: 0 <= f < |files| && 0 <= i < |files[f].1| ==> Rows.Flat(files[f].1[i].flat)
  }

  method Convert(cfg: Settings, files: seq<(string, seq<Rows.State>)>) returns (written: seq<Rows.State>, filtered: seq<ODict>, o: Outcome)
    requires FlatInputs(files) && KeepsFlat(cfg.pipeline)
    ensures Run(written, filtered, o) == ConvertRun(cfg, files)
  {
    written, filtered, o := [], [], Pass;
    for f := 0 to |files|
      invariant Run(written, filtered, o) == ConvertRun(cfg, files[..f]) && o.Pass?
    {
      assert files[..f + 1][..f] == files[..f];
      assert forall i :: 0 <= i < |files[f].1| ==> Rows.Flat(files[f].1[i].flat);
      assert ConvertRun(cfg, files[..f + 1]) == Fold(cfg, ConvertRun(cfg, files[..f]), Verdicts(cfg, files[f].0, files[f].1));
      written, filtered, o := ConvertFile(cfg, files[f].0, files[f].1, written, filtered);
      if o.Fail? {
        ConvertRunStops(cfg, files, f + 1);
        return;
      }
    }
    assert files[..|files|] == files;
  }

  /** The row loop over one file's rows, adding to the rows gathered so far. */
  method ConvertFile(cfg: Settings, file: string, rows: seq<Rows.State>, written0: seq<Rows.State>, filtered0: seq<ODict>)
    returns (written: seq<Rows.State>, filtered: seq<ODict>, o: Outcome)
    requires forall i :: 0 <= i < |rows| ==> Rows.Flat(rows[i].flat)
    requires KeepsFlat(cfg.pipeline)
    ensures Run(written, filtered, o) == Fold(cfg, Run(written0, filtered0, Pass), Verdicts(cfg, file, rows))
  {
    ghost var vs := Verdicts(cfg, file, rows);
    ghost var start := Run(written0, filtered0, Pass);
    written, filtered, o := written0, filtered0, Pass;
    for i := 0 to |rows|
      invariant Run(written, filtered, o) == Fold(cfg, start, vs[..i]) && o.Pass?
    {
      var v := HandleRow(cfg, file, i, rows[i]);
      assert v == vs[i];
      written, filtered, o := Absorb(cfg, start, vs, i, written, filtered, v);
      if o.Fail? {
        return;
      }
    }
    assert vs[..|rows|] == vs;
  }

  /** One verdict of the row loop taken into the output; a raised exception ends the file, and the run. */
  method Absorb(cfg: Settings, ghost start: Run, ghost vs: seq<Verdict>, i: nat, written0: seq<Rows.State>, filtered0: seq<ODict>, v: Verdict)
    returns (written: seq<Rows.State>, filtered: seq<ODict>, o: Outcome)
    requires i < |vs| && v == vs[i]
    requires Run(written0, filtered0, Pass) == Fold(cfg, start, vs[..i])
    ensures o.Pass? ==> Run(written, filtered, o) == Fold(cfg, start, vs[..i + 1])
    ensures o.Fail? ==> Run(written, filtered, o) == Fold(cfg, start, vs)
  {
    FoldStep(cfg, start, vs, i);
    written, filtered, o := written0, filtered0, Pass;
    match v {
      case Skipped =>
      case Dropped(flat) =>
        if cfg.collectFiltered {
          filtered := filtered + [flat];
        }
      case Written(t) =>
        written := written + [t];
      case Raised(e) =>
        FoldSplit(cfg, start, vs, i + 1);
        o := Fail(e);
    }
  }

  /** One more verdict of a run that has not failed. */
  lemma FoldStep(cfg: Settings, start: Run, vs: seq<Verdict>, i: nat)
    requires i < |vs| && Fold(cfg, start, vs[..i]).outcome.Pass?
    ensures Fold(cfg, start, vs[..i + 1]) == Extend(cfg, Fold(cfg, start, vs[..i]), vs[i])
  {
    assert vs[..i + 1][..i] == vs[..i];
  }

  /** Once a run has failed, later verdicts add nothing. */
  lemma {:induction false} FoldStops(cfg: Settings, start: Run, vs: seq<Verdict>)
    requires start.outcome.Fail?
    ensures Fold(cfg, start, vs) == start
    decreases |vs|
  {
    if vs != [] {
      FoldStops(cfg, start, vs[..|vs| - 1]);
    }
  }

  /** A run that fails part way ends where it failed. */
  lemma {:induction false} FoldSplit(cfg: Settings, start: Run, vs: seq<Verdict>, n: nat)
    requires n <= |vs| && Fold(cfg, start, vs[..n]).outcome.Fail?
    ensures Fold(cfg, start, vs) == Fold(cfg, start, vs[..n])
    decreases |vs| - n
  {
    if n < |vs| {
      assert vs[..n + 1][..n] == vs[..n];
      FoldSplit(cfg, start, vs, n + 1);
    } else {
      assert vs[..n] == vs;
    }
  }

  lemma {:induction false} ConvertRunStops(cfg: Settings, files: seq<(string, seq<Rows.State>)>, n: nat)
    requires 0 < n <= |files| && ConvertRun(cfg, files[..n]).outcome.Fail?
    ensures ConvertRun(cfg, files) == ConvertRun(cfg, files[..n])
    decreases |files| - n
  {
    if n < |files| {
      assert files[..n + 1][..n] == files[..n];
      FoldStops(cfg, ConvertRun(cfg, files[..n]), Verdicts(cfg, files[n].0, files[n].1));
      ConvertRunStops(cfg, files, n + 1);
    } else {
      assert files[..n] == files;
    }
  }

  /** A run only ever adds to the writer's rows and the filtered-out rows. */
  lemma {:induction false} FoldExtends(cfg: Settings, start: Run, vs: seq<Verdict>)
    ensures start.written <= Fold(cfg, start, vs).written && start.filtered <= Fold(cfg, start, vs).filtered
    decreases |vs|
  {
    if vs != [] {
      FoldExtends(cfg, start, vs[..|vs| - 1]);
    }
  }

  /** The rows pushed for the first files come first, in input order. */
  lemma {:induction false} ConvertRunPrefix(cfg: Settings, files: seq<(string, seq<Rows.State>)>, n: nat)
    requires n <= |files|
    ensures ConvertRun(cfg, files[..n]).written <= ConvertRun(cfg, files).written
    decreases |files| - n
  {
    if n < |files| {
      assert files[..n + 1][..n] == files[..n];
      FoldExtends(cfg, ConvertRun(cfg, files[..n]), Verdicts(cfg, files[n].0, files[n].1));
      ConvertRunPrefix(cfg, files, n + 1);
    } else {
      assert files[..n] == files;
    }
  }

  /** Skipped rows add nothing. */
  lemma {:induction false} FoldAllSkipped(cfg: Settings, start: Run, vs: seq<Verdict>)
    requires forall i :: 0 <= i < |vs| ==> vs[i].Skipped?
    ensures Fold(cfg, start, vs) == start
    decreases |vs|
  {
    if vs != [] {
      FoldAllSkipped(cfg, start, vs[..|vs| - 1]);
    }
  }

  /** When every row of every file is in the ignore set, nothing is pushed, collected or raised. */
  lemma {:induction false} ConvertRunAllIgnored(cfg: Settings, files: seq<(string, seq<Rows.State>)>)
    requires forall f, i :: 0 <= f < |files| && 0 <= i < |files[f].1| ==> Ignored(cfg.ignore, files[f].0, i)
    ensures ConvertRun(cfg, files) == Run([], [], Pass)
    decreases |files|
  {
    if files != [] {
      var init, last := files[..|files| - 1], files[|files| - 1];
      assert forall f :: 0 <= f < |init| ==> init[f] == files[f];
      ConvertRunAllIgnored(cfg, init);
      FoldAllSkipped(cfg, Run([], [], Pass), Verdicts(cfg, last.0, last.1));
    }
  }

  /** Without a filtered-out output no dropped row is collected. */
  lemma {:induction false} FoldNoCollect(cfg: Settings, start: Run, vs: seq<Verdict>)
    requires !cfg.collectFiltered
    ensures Fold(cfg, start, vs).filtered == start.filtered
    decreases |vs|
  {
    if vs != [] {
      FoldNoCollect(cfg, start, vs[..|vs| - 1]);
    }
  }

  lemma {:induction false} ConvertRunNoCollect(cfg: Settings, files: seq<(string, seq<Rows.State>)>)
    requires !cfg.collectFiltered
    ensures ConvertRun(cfg, files).filtered == []
    decreases |files|
  {
    if files != [] {
      var last := files[|files| - 1];
      ConvertRunNoCollect(cfg, files[..|files| - 1]);
      FoldNoCollect(cfg, ConvertRun(cfg, files[..|files| - 1]), Verdicts(cfg, last.0, last.1));
    }
  }

  /** A row without staging entries in either view. */
  predicate NoStaging(t: Rows.State) {
    && (forall i :: 0 <= i < |t.flat| ==> !FieldOps.Under(t.flat[i].0, Lookup.Staging))
    && NestedField.Descend(t.nested, Lookup.Staging).None?
  }

  /** Runs built from stripped verdicts push only stripped rows. */
  lemma {:induction false} FoldStripped(cfg: Settings, start: Run, vs: seq<Verdict>)
    requires forall j :: 0 <= j < |start.written| ==> NoStaging(start.written[j])
    requires forall i :: 0 <= i < |vs| && vs[i].Written? ==> NoStaging(vs[i].row)
    ensures forall j :: 0 <= j < |Fold(cfg, start, vs).written| ==> NoStaging(Fold(cfg, start, vs).written[j])
    decreases |vs|
  {
    if vs != [] {
      var init, last := vs[..|vs| - 1], vs[|vs| - 1];
      assert forall i :: 0 <= i < |init| ==> init[i] == vs[i];
      FoldStripped(cfg, start, init);
      var r := Fold(cfg, start, init);
      assert Fold(cfg, start, vs) == if r.outcome.Fail? then r else Extend(cfg, r, last);
      ExtendStripped(cfg, r, last);
    }
  }

  /** One verdict keeps a run's rows stripped when a written row is stripped. */
  lemma ExtendStripped(cfg: Settings, run: Run, v: Verdict)
    requires forall j :: 0 <= j < |run.written| ==> NoStaging(run.written[j])
    requires v.Written? ==> NoStaging(v.row)
    ensures forall j :: 0 <= j < |Extend(cfg, run, v).written| ==> NoStaging(Extend(cfg, run, v).written[j])
  {
    var w := Extend(cfg, run, v).written;
    if v.Written? {
      assert w == run.written + [v.row];
      forall j | 0 <= j < |w|
        ensures NoStaging(w[j])
      {
        if j < |run.written| {
          assert w[j] == run.written[j];
        } else {
          assert w[j] == v.row;
        }
      }
    } else {
      assert w == run.written;
    }
  }

  /** Without debug output, no row the writer receives has staging entries in either view. */
  lemma {:induction false} ConvertRunStripped(cfg: Settings, files: seq<(string, seq<Rows.State>)>)
    requires !cfg.debug
    ensures forall j :: 0 <= j < |ConvertRun(cfg, files).written| ==> NoStaging(ConvertRun(cfg, files).written[j])
    decreases |files|
  {
    if files != [] {
      var last := files[|files| - 1];
      ConvertRunStripped(cfg, files[..|files| - 1]);
      var vs := Verdicts(cfg, last.0, last.1);
      forall i | 0 <= i < |vs| && vs[i].Written?
        ensures NoStaging(vs[i].row)
      {
        VerdictStripped(cfg, last.0, i, last.1[i]);
      }
      FoldStripped(cfg, ConvertRun(cfg, files[..|files| - 1]), vs);
    }
  }
}

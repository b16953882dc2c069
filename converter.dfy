/**
 * The row transformations of the first-generation converter (`table_converter`):
 * dotted reads and writes on plain dictionaries, the three-tier column search
 * over `__debug__`, `__debug__.__original__` and the raw row, and the steps
 * that map constants, pick columns, split by newline and assign ids.
 */
module Converter {

  import opened Wrappers
  import opened Values
  import Strings
  import NestedField
  import IdMaps

  /** The key under which a row carries its working values. */
  const Debug := "__debug__"
  /** The key under `__debug__` that holds a snapshot of the input row. */
  const Original := "__original__"

  // ---------------------------------------------------------------------------
  // get_field_value

  /**
   * `get_field_value(data, field)`: `Some(v)` for `(v, True)` and `None` for `(None, False)`.
   * The whole text is tried as a key before the first dot splits it. Where the descent meets
   * a value that is not a dict, Python's `in` and indexing decide, and indexing a text or a
   * list by a text raises TypeError.
   */
  function GetFieldValue(data: Value, field: string): (r: Result<Option<Value>>)
    ensures data.Obj? && HasKey(data.fields, field) ==> r == Ok(Get(data.fields, field))
    ensures data.Obj? && !HasKey(data.fields, field) && '.' !in field ==> r == Ok(None)
    ensures r.Ok? && r.value.Some? ==> data.Obj?
    decreases |field|
  {
    var has :- ContainsKey(data, field);
    if has then
      match data
      case Obj(fields) => Ok(Get(fields, field))
      case _ => Err(TypeError)
    else
      match Strings.SplitOnce(field, '.')
      case (_, None) => Ok(None)
      case (head, Some(rest)) =>
        var hasHead := ContainsKey(data, head).value;
        if !hasHead then Ok(None)
        else
          match data
          case Obj(fields) => GetFieldValue(Get(fields, head).value, rest)
          case _ => Err(TypeError)
  }

  /** Without shadowing keys, `get_field_value` finds exactly what the dotted descent finds. */
  lemma {:induction false} GetFieldDescend(d: ODict, field: string)
    requires NestedField.NoDottedShadow(d, field)
    ensures GetFieldValue(Obj(d), field).Ok? && NestedField.Descend(d, field).Some?
            ==> GetFieldValue(Obj(d), field).value == NestedField.Descend(d, field)
    ensures NestedField.Descend(d, field).Some? ==> GetFieldValue(Obj(d), field) == Ok(NestedField.Descend(d, field))
    decreases |field|
  {
    match Strings.SplitOnce(field, '.')
    case (head, None) =>
    case (head, Some(rest)) =>
      match Get<Value>(d, head)
      case Some(Obj(sub)) =>
        GetFieldDescend(sub, rest);
      case _ =>
  }

  /** `set_field_value(d, p, v)` then `get_field_value(d, p)` gives `v` back, when no literal dotted key shadows `p`. */
  lemma GetAfterSet(d: ODict, field: string, value: Value)
    requires NestedField.NoDottedShadow(d, field)
    requires NestedField.SetNestedFieldValue(d, field, value).Ok?
    ensures GetFieldValue(Obj(NestedField.SetNestedFieldValue(d, field, value).value), field) == Ok(Some(value))
  {
    NestedField.SetKeepsNoShadow(d, field, value);
    GetFieldDescend(NestedField.SetNestedFieldValue(d, field, value).value, field);
  }

  /** A literal key `a.b` shadows the nested entry that `set_field_value(d, "a.b", 2)` writes. */
  lemma ShadowedRead()
    ensures var d := [("a.b", Int(1))];
            var d' := NestedField.SetNestedFieldValue(d, "a.b", Int(2));
            d'.Ok? && GetFieldValue(Obj(d'.value), "a.b") == Ok(Some(Int(1)))
  {
    var d := [("a.b", Int(1))];
    Strings.SplitOnceJoined("a", "b", '.');
    assert "a" + ['.'] + "b" == "a.b";
    Strings.SplitOnceJoined("b", "", '.');
    assert !HasKey(d, "a");
    var d' := NestedField.SetNestedFieldValue(d, "a.b", Int(2));
    assert d'.Ok?;
    assert HasKey(d'.value, "a.b");
  }

  // ---------------------------------------------------------------------------
  // search_column_value

  /** What a search returns: the value if found, and the row afterwards (a raw hit is written back). */
  datatype Hit = Hit(value: Option<Value>, row: ODict)

  /** `get_field_value(row, '__debug__.__original__')`, spelt out as the path it is. */
  const OriginalPath := Debug + "." + Original

  /**
   * `search_column_value(row, column)`: the column under `__debug__`, else under the original
   * snapshot, else in the raw row, where a hit is written back at the same dotted path.
   * `row['__debug__']` is read on every path past the first tier, so a row without it raises KeyError.
   */
  function SearchColumnValue(row: ODict, column: string): (r: Result<Hit>)
    ensures !HasKey(row, Debug) ==> r == Err(KeyError(Debug))
    ensures r.Ok? && r.value.value.None? ==> r.value.row == row
    ensures r.Ok? && r.value.row != row ==> HasKey(row, Debug) && UpperTiers(row, column) == Ok(None) && r == RawTier(row, column)
  {
    if !HasKey(row, Debug) then Err(KeyError(Debug))
    else
      var upper :- UpperTiers(row, column);
      if upper.Some? then Ok(Hit(upper, row)) else RawTier(row, column)
  }

  /** The first two tiers of a search, which only read: `__debug__`, then the original snapshot. */
  function UpperTiers(row: ODict, column: string): Result<Option<Value>>
    requires HasKey(row, Debug)
  {
    var tier1 :- GetFieldValue(Get(row, Debug).value, column);
    if tier1.Some? then Ok(tier1)
    else
      var original :- GetFieldValue(Obj(row), OriginalPath);
      if original.Some? then GetFieldValue(original.value, column) else Ok(None)
  }

  /** The last tier of a search: the raw row, where a hit is written back at the same dotted path. */
  function RawTier(row: ODict, column: string): (r: Result<Hit>)
    ensures r.Ok? && r.value.row != row ==>
              && GetFieldValue(Obj(row), column) == Ok(r.value.value)
              && r.value.value.Some?
              && NestedField.SetNestedFieldValue(row, column, r.value.value.value) == Ok(r.value.row)
  {
    var raw :- GetFieldValue(Obj(row), column);
    match raw
    case None => Ok(Hit(None, row))
    case Some(v) =>
      var row' :- NestedField.SetNestedFieldValue(row, column, v);
      Ok(Hit(Some(v), row'))
  }

  /** A value under `__debug__` is returned before anything else, and the row is left alone. */
  lemma SearchDebugFirst(row: ODict, column: string, v: Value)
    requires HasKey(row, Debug)
    requires GetFieldValue(Get(row, Debug).value, column) == Ok(Some(v))
    ensures SearchColumnValue(row, column) == Ok(Hit(Some(v), row))
  {
  }

  /** Failing `__debug__`, a value in the original snapshot is returned, and the row is left alone. */
  lemma SearchOriginalSecond(row: ODict, column: string, original: Value, v: Value)
    requires HasKey(row, Debug)
    requires GetFieldValue(Get(row, Debug).value, column) == Ok(None)
    requires GetFieldValue(Obj(row), OriginalPath) == Ok(Some(original))
    requires GetFieldValue(original, column) == Ok(Some(v))
    ensures SearchColumnValue(row, column) == Ok(Hit(Some(v), row))
  {
  }

  /** A raw hit is written back: afterwards the dotted path holds the value found. */
  lemma SearchWritesBack(row: ODict, column: string)
    requires HasKey(row, Debug)
    requires GetFieldValue(Get(row, Debug).value, column) == Ok(None)
    requires GetFieldValue(Obj(row), OriginalPath) == Ok(None)
    requires SearchColumnValue(row, column).Ok?
    ensures var h := SearchColumnValue(row, column).value;
            h.value == GetFieldValue(Obj(row), column).value
            && (h.value.Some? ==> NestedField.Descend(h.row, column) == h.value)
  {
    assert UpperTiers(row, column) == Ok(None);
    var raw := GetFieldValue(Obj(row), column).value;
    if raw.Some? {
      var written := NestedField.SetNestedFieldValue(row, column, raw.value);
      assert SearchColumnValue(row, column) == Ok(Hit(raw, written.value));
    } else {
      assert SearchColumnValue(row, column) == Ok(Hit(None, row));
    }
  }

  /** Without a shadowing literal key, the write-back stores what was already there: the row is unchanged. */
  lemma SearchWriteBackKeepsRow(row: ODict, column: string)
    requires NestedField.NoDottedShadow(row, column)
    requires SearchColumnValue(row, column).Ok?
    ensures SearchColumnValue(row, column).value.row == row
  {
    var h := SearchColumnValue(row, column).value;
    if h.row != row {
      var v := SearchRawHit(row, column);
      assert NestedField.Descend(row, column) == Some(v) by {
        GetFieldDescend(row, column);
        if NestedField.Descend(row, column).None? {
          GetFieldNoShadowFound(row, column);
        }
      }
      SetExisting(row, column, v);
    }
  }

  /** A search that changes the row found `v` in the raw row and wrote it back at the same path. */
  lemma SearchRawHit(row: ODict, column: string) returns (v: Value)
    requires SearchColumnValue(row, column).Ok? && SearchColumnValue(row, column).value.row != row
    ensures GetFieldValue(Obj(row), column) == Ok(Some(v))
    ensures NestedField.SetNestedFieldValue(row, column, v) == Ok(SearchColumnValue(row, column).value.row)
  {
    v := RawTier(row, column).value.value.value;
  }

  /** Without shadowing, whatever `get_field_value` finds in a dict lies at the dotted path. */
  lemma {:induction false} GetFieldNoShadowFound(d: ODict, field: string)
    requires NestedField.NoDottedShadow(d, field)
    requires GetFieldValue(Obj(d), field).Ok? && GetFieldValue(Obj(d), field).value.Some?
    ensures NestedField.Descend(d, field) == GetFieldValue(Obj(d), field).value
    decreases |field|
  {
    match Strings.SplitOnce(field, '.')
    case (head, None) =>
    case (head, Some(rest)) =>
      var sub := Get(d, head).value;
      assert GetFieldValue(Obj(d), field) == GetFieldValue(sub, rest);
      assert sub.Obj?;
      GetFieldNoShadowFound(sub.fields, rest);
  }

  /** Writing at a path the value that is already there changes nothing. */
  lemma {:induction false} SetExisting(d: ODict, field: string, v: Value)
    requires NestedField.Descend(d, field) == Some(v)
    ensures NestedField.SetNestedFieldValue(d, field, v) == Ok(d)
    decreases |field|
  {
    match Strings.SplitOnce(field, '.')
    case (head, None) =>
      PutSame(d, head, v);
    case (head, Some(rest)) =>
      var sub := Get(d, head).value.fields;
      SetExisting(sub, rest, v);
      PutSame(d, head, Obj(sub));
  }

  /** Storing under a key the value it already has changes nothing. */
  lemma PutSame<V>(m: OMap<V>, k: string, v: V)
    requires Get(m, k) == Some(v)
    ensures Put(m, k, v) == m
  {
    var i := Find(m, k).value;
    assert m[i] == (k, v);
    assert m[i := (k, v)] == m;
  }

  // ---------------------------------------------------------------------------
  // map_constants

  /** Writes each entry at `prefix + key`, in order, stopping at the first write that raises. */
  function SetEach(d: ODict, prefix: string, entries: OMap<Value>): Result<ODict>
    decreases |entries|
  {
    if entries == [] then Ok(d)
    else
      var d' :- NestedField.SetNestedFieldValue(d, prefix + entries[0].0, entries[0].1);
      SetEach(d', prefix, entries[1..])
  }

  /** `map_constants(row, constants)`: every constant is written under `__debug__` of a copy of the row. */
  method MapConstants(row: ODict, constants: OMap<Value>) returns (r: Result<ODict>)
    ensures r == SetEach(row, Debug + ".", constants)
  {
    var newRow := row;
    for i := 0 to |constants|
      invariant SetEach(newRow, Debug + ".", constants[i..]) == SetEach(row, Debug + ".", constants)
    {
      assert constants[i..][1..] == constants[i + 1..];
      var w := NestedField.SetNestedFieldValue(newRow, Debug + "." + constants[i].0, constants[i].1);
      if w.Err? {
        return Err(w.error);
      }
      newRow := w.value;
    }
    assert constants[|constants|..] == [];
    return Ok(newRow);
  }

  /** The paths written one after the other leave a path that parts from all of them as it was. */
  lemma {:induction false} SetEachFrame(d: ODict, prefix: string, entries: OMap<Value>, q: string)
    requires forall i :: 0 <= i < |entries| ==> NestedField.Diverges(prefix + entries[i].0, q)
    requires SetEach(d, prefix, entries).Ok?
    ensures NestedField.Descend(SetEach(d, prefix, entries).value, q) == NestedField.Descend(d, q)
    decreases |entries|
  {
    if entries != [] {
      var d' := NestedField.SetNestedFieldValue(d, prefix + entries[0].0, entries[0].1).value;
      NestedField.SetNestedFrame(d, prefix + entries[0].0, q, entries[0].1);
      SetEachFrame(d', prefix, entries[1..], q);
    }
  }

  /** When no written path is a prefix of another, every entry can be read back at its path. */
  lemma {:induction false} SetEachStores(d: ODict, prefix: string, entries: OMap<Value>)
    requires forall i, j :: 0 <= i < |entries| && 0 <= j < |entries| && i != j
               ==> NestedField.Diverges(prefix + entries[i].0, prefix + entries[j].0)
    requires SetEach(d, prefix, entries).Ok?
    ensures forall i :: 0 <= i < |entries|
              ==> NestedField.Descend(SetEach(d, prefix, entries).value, prefix + entries[i].0) == Some(entries[i].1)
    decreases |entries|
  {
    if entries != [] {
      var p0 := prefix + entries[0].0;
      var d' := NestedField.SetNestedFieldValue(d, p0, entries[0].1).value;
      var rest := entries[1..];
      assert forall i :: 0 <= i < |rest| ==> rest[i] == entries[i + 1];
      var final := SetEach(d', prefix, rest).value;
      assert SetEach(d, prefix, entries).value == final;
      SetEachStores(d', prefix, rest);
      SetEachFrame(d', prefix, rest, p0);
      forall i | 0 <= i < |entries|
        ensures NestedField.Descend(final, prefix + entries[i].0) == Some(entries[i].1)
      {
        if i > 0 {
          assert entries[i] == rest[i - 1];
        }
      }
    }
  }

  /** Two paths under the same dot-free head part exactly where their tails part. */
  lemma DivergesUnder(head: string, p: string, q: string)
    requires '.' !in head && NestedField.Diverges(p, q)
    ensures NestedField.Diverges(head + "." + p, head + "." + q)
  {
    Strings.SplitOnceJoined(head, p, '.');
    Strings.SplitOnceJoined(head, q, '.');
  }

  /** Constants whose names do not nest into one another can all be read back under `__debug__`. */
  lemma MapConstantsStores(row: ODict, constants: OMap<Value>)
    requires forall i, j :: 0 <= i < |constants| && 0 <= j < |constants| && i != j
               ==> NestedField.Diverges(constants[i].0, constants[j].0)
    requires SetEach(row, Debug + ".", constants).Ok?
    ensures forall i :: 0 <= i < |constants|
              ==> NestedField.Descend(SetEach(row, Debug + ".", constants).value, Debug + "." + constants[i].0)
                  == Some(constants[i].1)
  {
    assert '.' !in Debug by {
      assert Debug == ['_', '_', 'd', 'e', 'b', 'u', 'g', '_', '_'];
    }
    SetEachUnder(row, Debug, constants);
  }

  /** Entries written under one dot-free head, with names that do not nest, can all be read back. */
  lemma SetEachUnder(row: ODict, head: string, constants: OMap<Value>)
    requires '.' !in head
    requires forall i, j :: 0 <= i < |constants| && 0 <= j < |constants| && i != j
               ==> NestedField.Diverges(constants[i].0, constants[j].0)
    requires SetEach(row, head + ".", constants).Ok?
    ensures forall i :: 0 <= i < |constants|
              ==> NestedField.Descend(SetEach(row, head + ".", constants).value, head + "." + constants[i].0)
                  == Some(constants[i].1)
  {
    forall i, j | 0 <= i < |constants| && 0 <= j < |constants| && i != j
      ensures NestedField.Diverges(head + "." + constants[i].0, head + "." + constants[j].0)
    {
      DivergesUnder(head, constants[i].0, constants[j].0);
    }
    SetEachStores(row, head + ".", constants);
  }

  // ---------------------------------------------------------------------------
  // remap_columns

  /** The first loop of `remap_columns`: each found source is written at its target in `acc`; the searched row is threaded through. */
  function PickEach(row: ODict, acc: ODict, remap: OMap<string>): Result<(ODict, ODict)>
    decreases |remap|
  {
    if remap == [] then Ok((row, acc))
    else
      var hit :- SearchColumnValue(row, remap[0].1);
      var acc' :- if hit.value.Some? then NestedField.SetNestedFieldValue(acc, remap[0].0, hit.value.value) else Ok(acc);
      PickEach(hit.row, acc', remap[1..])
  }

  /** The second loop of `remap_columns`: the `__debug__` entry of the row is carried over. */
  function CopyDebug(acc: ODict, entries: ODict): ODict
    decreases |entries|
  {
    if entries == [] then acc
    else CopyDebug(if entries[0].0 == Debug then Put(acc, Debug, entries[0].1) else acc, entries[1..])
  }

  function Remap(row: ODict, remap: OMap<string>): Result<ODict> {
    var (row', acc) :- PickEach(row, [], remap);
    Ok(CopyDebug(acc, row'))
  }

  /** `remap_columns(row, remap)`: a new row holding the picked columns and `__debug__`. */
  method RemapColumns(row: ODict, remap: OMap<string>) returns (r: Result<ODict>)
    ensures r == Remap(row, remap)
  {
    var cur, acc := row, [];
    for i := 0 to |remap|
      invariant PickEach(cur, acc, remap[i..]) == PickEach(row, [], remap)
    {
      assert remap[i..][1..] == remap[i + 1..];
      var hit := SearchColumnValue(cur, remap[i].1);
      if hit.Err? {
        return Err(hit.error);
      }
      if hit.value.value.Some? {
        var w := NestedField.SetNestedFieldValue(acc, remap[i].0, hit.value.value.value);
        if w.Err? {
          return Err(w.error);
        }
        acc := w.value;
      }
      cur := hit.value.row;
    }
    assert remap[|remap|..] == [];
    var out := acc;
    for j := 0 to |cur|
      invariant CopyDebug(out, cur[j..]) == CopyDebug(acc, cur)
    {
      assert cur[j..][1..] == cur[j + 1..];
      if cur[j].0 == Debug {
        out := Put(out, Debug, cur[j].1);
      }
    }
    assert cur[|cur|..] == [];
    return Ok(out);
  }

  /** The first segment of a dotted path. */
  function Head(path: string): string {
    Strings.SplitOnce(path, '.').0
  }

  /** Every top-level key of `d` is allowed. */
  predicate KeysWithin(d: ODict, allowed: set<string>) {
    forall i :: 0 <= i < |d| ==> d[i].0 in allowed
  }

  lemma SetKeysWithin(d: ODict, path: string, value: Value, allowed: set<string>)
    requires KeysWithin(d, allowed) && Head(path) in allowed
    requires NestedField.SetNestedFieldValue(d, path, value).Ok?
    ensures KeysWithin(NestedField.SetNestedFieldValue(d, path, value).value, allowed)
  {
    var d' := NestedField.SetNestedFieldValue(d, path, value).value;
    forall i | 0 <= i < |d'| ensures d'[i].0 in allowed {
      assert d'[i].0 == Keys(d')[i];
      if i < |d| {
        assert Keys(d')[i] == Keys(d)[i];
      }
    }
  }

  lemma {:induction false} PickEachKeys(row: ODict, acc: ODict, remap: OMap<string>, allowed: set<string>)
    requires KeysWithin(acc, allowed)
    requires forall i :: 0 <= i < |remap| ==> Head(remap[i].0) in allowed
    requires PickEach(row, acc, remap).Ok?
    ensures KeysWithin(PickEach(row, acc, remap).value.1, allowed)
    decreases |remap|
  {
    if remap != [] {
      var hit := SearchColumnValue(row, remap[0].1).value;
      var acc' := if hit.value.Some? then NestedField.SetNestedFieldValue(acc, remap[0].0, hit.value.value).value else acc;
      if hit.value.Some? {
        SetKeysWithin(acc, remap[0].0, hit.value.value, allowed);
      }
      assert forall i :: 0 <= i < |remap[1..]| ==> remap[1..][i] == remap[i + 1];
      PickEachKeys(hit.row, acc', remap[1..], allowed);
    }
  }

  lemma PutKeysWithin(d: ODict, k: string, value: Value, allowed: set<string>)
    requires KeysWithin(d, allowed) && k in allowed
    ensures KeysWithin(Put(d, k, value), allowed)
  {
    var d' := Put(d, k, value);
    forall i | 0 <= i < |d'| ensures d'[i].0 in allowed {
      assert d'[i].0 == Keys(d')[i];
      if i < |d| {
        assert Keys(d')[i] == Keys(d)[i];
        assert d[i].0 == Keys(d)[i];
      }
    }
  }

  lemma {:induction false} CopyDebugKeys(acc: ODict, entries: ODict, allowed: set<string>)
    requires KeysWithin(acc, allowed) && Debug in allowed
    ensures KeysWithin(CopyDebug(acc, entries), allowed)
    decreases |entries|
  {
    if entries != [] {
      var acc' := if entries[0].0 == Debug then Put(acc, Debug, entries[0].1) else acc;
      if entries[0].0 == Debug {
        PutKeysWithin(acc, Debug, entries[0].1, allowed);
      }
      CopyDebugKeys(acc', entries[1..], allowed);
    }
  }

  /** The output of `remap_columns` holds only the picked targets and `__debug__`: unpicked raw columns are dropped. */
  lemma RemapKeys(row: ODict, remap: OMap<string>)
    requires Remap(row, remap).Ok?
    ensures forall i :: 0 <= i < |Remap(row, remap).value| ==>
              var k := Remap(row, remap).value[i].0;
              k == Debug || exists j :: 0 <= j < |remap| && k == Head(remap[j].0)
  {
    var allowed := {Debug} + set j | 0 <= j < |remap| :: Head(remap[j].0);
    PickEachKeys(row, [], remap, allowed);
    var (row', acc) := PickEach(row, [], remap).value;
    CopyDebugKeys(acc, row', allowed);
    var out := Remap(row, remap).value;
    forall i | 0 <= i < |out|
      ensures out[i].0 == Debug || exists j :: 0 <= j < |remap| && out[i].0 == Head(remap[j].0)
    {
      assert out[i].0 in allowed;
    }
  }

  // ---------------------------------------------------------------------------
  // apply_fields_split_by_newline

  /** Texts become the list of their lines, empty ones included; other values stay as they are. */
  function SplitByNewline(v: Value): (r: Value)
    ensures !v.Str? ==> r == v
  {
    match v
    case Str(s) =>
      var pieces := Strings.Split(s, "\n");
      List(seq(|pieces|, i requires 0 <= i < |pieces| => Str(pieces[i])))
    case _ => v
  }

  /** The lines of a split text join back into the text, and none of them holds a newline. */
  lemma SplitByNewlineLines(s: string)
    ensures var items := SplitByNewline(Str(s)).items;
            && (forall i :: 0 <= i < |items| ==> items[i].Str? && Strings.FindFrom(items[i].s, "\n", 0).None?)
            && Strings.Join(seq(|items|, i requires 0 <= i < |items| => items[i].s), "\n") == s
  {
    var pieces := Strings.Split(s, "\n");
    var items := SplitByNewline(Str(s)).items;
    assert seq(|items|, i requires 0 <= i < |items| => items[i].s) == pieces;
    Strings.JoinSplit(s, "\n");
    Strings.SplitPiecesFree(s, "\n");
    assert forall i :: 0 <= i < |items| ==> items[i].s == pieces[i] && pieces[i] in pieces;
  }

  /**
   * The row a search of `apply_fields_split_by_newline` sees. `OrderedDict(row)` copies only the
   * top level, so the row and the copy `acc` share one `__debug__` dict, and what the loop has
   * written under `__debug__` of the copy is visible to the next search of the row.
   */
  function SharedDebug(row: ODict, acc: ODict): (r: ODict)
    ensures HasKey(acc, Debug) ==> Get(r, Debug) == Get(acc, Debug)
    ensures !HasKey(acc, Debug) ==> r == row
  {
    if HasKey(acc, Debug) then Put(row, Debug, Get(acc, Debug).value) else row
  }

  /** The loop of `apply_fields_split_by_newline`: searches in the threaded row with the shared `__debug__`, writes into `acc`. */
  function SplitEach(row: ODict, acc: ODict, fields: OMap<string>): Result<ODict>
    decreases |fields|
  {
    if fields == [] then Ok(acc)
    else
      var hit :- SearchColumnValue(SharedDebug(row, acc), fields[0].1);
      var acc' :- if hit.value.Some? then NestedField.SetNestedFieldValue(acc, Debug + "." + fields[0].0, SplitByNewline(hit.value.value))
                  else Ok(acc);
      SplitEach(hit.row, acc', fields[1..])
  }

  /** `apply_fields_split_by_newline(row, fields)` on a copy of the row. */
  method ApplyFieldsSplitByNewline(row: ODict, fields: OMap<string>) returns (r: Result<ODict>)
    ensures r == SplitEach(row, row, fields)
  {
    var cur, acc := row, row;
    for i := 0 to |fields|
      invariant SplitEach(cur, acc, fields[i..]) == SplitEach(row, row, fields)
    {
      assert fields[i..][1..] == fields[i + 1..];
      var hit := SearchColumnValue(SharedDebug(cur, acc), fields[i].1);
      if hit.Err? {
        return Err(hit.error);
      }
      if hit.value.value.Some? {
        var w := NestedField.SetNestedFieldValue(acc, Debug + "." + fields[i].0, SplitByNewline(hit.value.value.value));
        if w.Err? {
          return Err(w.error);
        }
        acc := w.value;
      }
      cur := hit.value.row;
    }
    assert fields[|fields|..] == [];
    return Ok(acc);
  }

  /** A source that is not found writes nothing. */
  lemma SplitMissingWritesNothing(row: ODict, acc: ODict, column: string, source: string)
    requires SearchColumnValue(SharedDebug(row, acc), source).Ok?
    requires SearchColumnValue(SharedDebug(row, acc), source).value.value.None?
    ensures SplitEach(row, acc, [(column, source)]) == Ok(acc)
  {
  }

  /**
   * A source that is found is written, split into lines when it is a text, at `__debug__.<column>`
   * of the copy, where `get_field_value` reads it back.
   */
  lemma SplitFoundWrites(row: ODict, acc: ODict, column: string, source: string, v: Value)
    requires SearchColumnValue(SharedDebug(row, acc), source).Ok?
    requires SearchColumnValue(SharedDebug(row, acc), source).value.value == Some(v)
    requires NestedField.NoDottedShadow(acc, Debug + "." + column)
    requires NestedField.SetNestedFieldValue(acc, Debug + "." + column, SplitByNewline(v)).Ok?
    ensures SplitEach(row, acc, [(column, source)]).Ok?
    ensures GetFieldValue(Obj(SplitEach(row, acc, [(column, source)]).value), Debug + "." + column) == Ok(Some(SplitByNewline(v)))
  {
    var f: OMap<string> := [(column, source)];
    assert f[1..] == [];
    GetAfterSet(acc, Debug + "." + column, SplitByNewline(v));
  }

  // ---------------------------------------------------------------------------
  // assign_id

  /** `AssignIdConfig`: the columns whose values are numbered, and the columns that select the numbering. */
  datatype AssignIdConfig = AssignIdConfig(primary: seq<string>, context: seq<string>)

  /** The bucket of a numbering: context columns, context values, primary columns. */
  type ContextKey = (seq<string>, seq<Value>, seq<string>)

  /** The `id_context_map` of `convert`, one `IdMap` per bucket, numbering tuples of primary values. */
  type Buckets = map<ContextKey, IdMaps.IdMap<seq<Value>>>

  /** Python can hash the value: it cannot hash lists and dicts. */
  predicate Hashable(v: Value) {
    !v.List? && !v.Obj?
  }

  predicate AllHashable(vs: seq<Value>) {
    forall i :: 0 <= i < |vs| ==> Hashable(vs[i])
  }

  /** Python's `==` on hashable values: `bool` is a subtype of `int`, so `True == 1` and `False == 0`. */
  predicate PyEq(a: Value, b: Value) {
    || a == b
    || (a.Bool? && b == Int(if a.b then 1 else 0))
    || (b.Bool? && a == Int(if b.b then 1 else 0))
  }

  /** The value as a dict compares it as a key: `True` is the key `1` and `False` the key `0`. */
  function HashKey(v: Value): (r: Value)
    ensures !r.Bool? && (Hashable(r) <==> Hashable(v))
    ensures PyEq(v, r)
  {
    if v.Bool? then Int(if v.b then 1 else 0) else v
  }

  /** A tuple of values as a dict compares it as a key. */
  function HashKeys(vs: seq<Value>): (r: seq<Value>)
    ensures |r| == |vs| && (AllHashable(r) <==> AllHashable(vs))
    ensures forall i :: 0 <= i < |vs| ==> PyEq(vs[i], r[i]) && !r[i].Bool?
  {
    var r := seq(|vs|, i requires 0 <= i < |vs| => HashKey(vs[i]));
    assert forall i :: 0 <= i < |vs| ==> r[i] == HashKey(vs[i]);
    r
  }

  /** Two tuples of hashable values are the same dict key exactly when Python finds them equal item by item. */
  lemma HashKeysSame(a: seq<Value>, b: seq<Value>)
    requires AllHashable(a) && AllHashable(b)
    ensures HashKeys(a) == HashKeys(b) <==> |a| == |b| && forall i :: 0 <= i < |a| ==> PyEq(a[i], b[i])
  {
    if |a| == |b| && forall i :: 0 <= i < |a| ==> PyEq(a[i], b[i]) {
      forall i | 0 <= i < |a| ensures HashKeys(a)[i] == HashKeys(b)[i] {
        assert Hashable(a[i]) && Hashable(b[i]);
      }
    }
    if HashKeys(a) == HashKeys(b) {
      forall i | 0 <= i < |a| ensures PyEq(a[i], b[i]) {
        assert HashKey(a[i]) == HashKey(b[i]);
      }
    }
  }

  /** Searches every column in turn and appends its value; a column that is not found raises KeyError. */
  function SearchAllFrom(row: ODict, columns: seq<string>, acc: seq<Value>): (r: Result<(ODict, seq<Value>)>)
    ensures r.Ok? ==> |r.value.1| == |acc| + |columns| && r.value.1[..|acc|] == acc
    decreases |columns|
  {
    if columns == [] then Ok((row, acc))
    else
      var hit :- SearchColumnValue(row, columns[0]);
      if hit.value.None? then Err(KeyError(columns[0]))
      else
        var r := SearchAllFrom(hit.row, columns[1..], acc + [hit.value.value]);
        assert r.Ok? ==> r.value.1[..|acc|] == (acc + [hit.value.value])[..|acc|];
        r
  }

  /** The column loops of `assign_id`: the found values, in column order. */
  method SearchColumns(row: ODict, columns: seq<string>) returns (r: Result<(ODict, seq<Value>)>)
    ensures r == SearchAllFrom(row, columns, [])
  {
    var cur, values := row, [];
    for i := 0 to |columns|
      invariant SearchAllFrom(cur, columns[i..], values) == SearchAllFrom(row, columns, [])
    {
      assert columns[i..][1..] == columns[i + 1..];
      var hit := SearchColumnValue(cur, columns[i]);
      if hit.Err? {
        return Err(hit.error);
      }
      if hit.value.value.None? {
        return Err(KeyError(columns[i]));
      }
      cur, values := hit.value.row, values + [hit.value.value.value];
    }
    assert columns[|columns|..] == [];
    return Ok((cur, values));
  }

  /**
   * The key of a row: the row after the searches, its bucket and its primary values, the values
   * in the form the dictionaries compare them. The context columns are searched before the primary ones.
   */
  function KeyOf(row: ODict, config: AssignIdConfig): (r: Result<(ODict, ContextKey, seq<Value>)>)
    ensures r.Ok? ==> r.value.1.0 == config.context && r.value.1.2 == config.primary
    ensures r.Ok? ==> |r.value.1.1| == |config.context| && |r.value.2| == |config.primary|
    ensures r.Ok? ==> (forall i :: 0 <= i < |r.value.1.1| ==> !r.value.1.1[i].Bool?)
                      && (forall i :: 0 <= i < |r.value.2| ==> !r.value.2[i].Bool?)
  {
    var (row1, contextValues) :- SearchAllFrom(row, config.context, []);
    var (row2, primaryValues) :- SearchAllFrom(row1, config.primary, []);
    Ok((row2, (config.context, HashKeys(contextValues), config.primary), HashKeys(primaryValues)))
  }

  /**
   * One entry of `assign_id`: the row gets, at `__debug__.<column>`, the id of its primary values
   * in its bucket. Hashing an unhashable context raises TypeError before the bucket is created;
   * hashing unhashable primary values raises it after.
   */
  function AssignIdStep(row: ODict, column: string, config: AssignIdConfig, buckets: Buckets): (r: (Result<ODict>, Buckets))
    ensures r.0.Ok? ==> KeyOf(row, config).Ok?
    ensures r.0.Ok? ==>
              var (row', key, values) := KeyOf(row, config).value;
              var (m', id, _) := IdMaps.Obtain(IdMaps.BucketOf(buckets, key), values);
              && AllHashable(key.1) && AllHashable(values)
              && NestedField.Descend(r.0.value, Debug + "." + column) == Some(Int(id))
              && r.1 == buckets[key := m']
  {
    match KeyOf(row, config)
    case Err(e) => (Err(e), buckets)
    case Ok((row', key, values)) =>
      if !AllHashable(key.1) then (Err(TypeError), buckets)
      else
        var m := IdMaps.BucketOf(buckets, key);
        if !AllHashable(values) then (Err(TypeError), buckets[key := m])
        else
          var (m', id, _) := IdMaps.Obtain(m, values);
          (NestedField.SetNestedFieldValue(row', Debug + "." + column, Int(id)), buckets[key := m'])
  }

  /** The loop of `assign_id` over its assignments, stopping at the first one that raises. */
  function AssignIdAll(row: ODict, assignments: OMap<AssignIdConfig>, buckets: Buckets): (Result<ODict>, Buckets)
    decreases |assignments|
  {
    if assignments == [] then (Ok(row), buckets)
    else
      var (r, buckets') := AssignIdStep(row, assignments[0].0, assignments[0].1, buckets);
      if r.Err? then (r, buckets')
      else AssignIdAll(r.value, assignments[1..], buckets')
  }

  /** `assign_id(row, assignments, id_context_map)`: a copy of the row carrying the ids; the map is updated in place. */
  method AssignId(row: ODict, assignments: OMap<AssignIdConfig>, ids: IdMaps.IdContextMap<ContextKey, seq<Value>>)
    returns (r: Result<ODict>)
    modifies ids
    ensures (r, ids.buckets) == AssignIdAll(row, assignments, old(ids.buckets))
    ensures old(ids.AllValid()) ==> ids.AllValid()
  {
    var newRow := row;
    for i := 0 to |assignments|
      invariant AssignIdAll(newRow, assignments[i..], ids.buckets) == AssignIdAll(row, assignments, old(ids.buckets))
      invariant old(ids.AllValid()) ==> ids.AllValid()
    {
      assert assignments[i..][1..] == assignments[i + 1..];
      var (column, config) := assignments[i];
      var c := SearchColumns(newRow, config.context);
      if c.Err? {
        return Err(c.error);
      }
      var p := SearchColumns(c.value.0, config.primary);
      if p.Err? {
        return Err(p.error);
      }
      var key, values := (config.context, HashKeys(c.value.1), config.primary), HashKeys(p.value.1);
      if !AllHashable(key.1) {
        return Err(TypeError);
      }
      if !AllHashable(values) {
        ids.Touch(key);
        return Err(TypeError);
      }
      var id, _ := ids.GetId(key, values);
      var w := NestedField.SetNestedFieldValue(p.value.0, Debug + "." + column, Int(id));
      if w.Err? {
        return Err(w.error);
      }
      newRow := w.value;
    }
    assert assignments[|assignments|..] == [];
    return Ok(newRow);
  }

  /** A step keeps every bucket valid. */
  lemma AssignIdStepValid(row: ODict, column: string, config: AssignIdConfig, buckets: Buckets)
    requires IdMaps.BucketsValid(buckets)
    ensures IdMaps.BucketsValid(AssignIdStep(row, column, config, buckets).1)
  {
    var k := KeyOf(row, config);
    if k.Ok? {
      var key, values := k.value.1, k.value.2;
      var m := IdMaps.BucketOf(buckets, key);
      IdMaps.BucketOfValid(buckets, key);
      IdMaps.UpdateValid(buckets, key, m);
      IdMaps.ObtainValid(m, values);
      IdMaps.UpdateValid(buckets, key, IdMaps.Obtain(m, values).0);
    }
  }

  lemma {:induction false} AssignIdAllValid(row: ODict, assignments: OMap<AssignIdConfig>, buckets: Buckets)
    requires IdMaps.BucketsValid(buckets)
    ensures IdMaps.BucketsValid(AssignIdAll(row, assignments, buckets).1)
    decreases |assignments|
  {
    if assignments != [] {
      AssignIdStepValid(row, assignments[0].0, assignments[0].1, buckets);
      var (r, buckets') := AssignIdStep(row, assignments[0].0, assignments[0].1, buckets);
      if r.Ok? {
        AssignIdAllValid(r.value, assignments[1..], buckets');
      }
    }
  }

  /** Only the bucket of the row's key may change; every other bucket stays as it was. */
  lemma AssignIdStepFrame(row: ODict, column: string, config: AssignIdConfig, buckets: Buckets, other: ContextKey)
    requires other in buckets
    requires KeyOf(row, config).Err? || KeyOf(row, config).value.1 != other
    ensures other in AssignIdStep(row, column, config, buckets).1
    ensures AssignIdStep(row, column, config, buckets).1[other] == buckets[other]
  {
  }

  /** The first value numbered in a new bucket gets the id 1. */
  lemma AssignIdFirstInBucket(row: ODict, column: string, config: AssignIdConfig, buckets: Buckets)
    requires KeyOf(row, config).Ok? && KeyOf(row, config).value.1 !in buckets
    requires AssignIdStep(row, column, config, buckets).0.Ok?
    ensures NestedField.Descend(AssignIdStep(row, column, config, buckets).0.value, Debug + "." + column) == Some(Int(1))
  {
    var (_, key, values) := KeyOf(row, config).value;
    assert IdMaps.BucketOf(buckets, key) == IdMaps.Empty();
    assert IdMaps.Obtain(IdMaps.Empty<seq<Value>>(), values).1 == 1;
  }

  /** Two rows with the same key, one after the other, get the same id. */
  lemma AssignIdSameKey(row1: ODict, row2: ODict, column: string, config: AssignIdConfig, buckets: Buckets)
    requires AssignIdStep(row1, column, config, buckets).0.Ok?
    requires KeyOf(row2, config).Ok? && KeyOf(row1, config).Ok?
    requires KeyOf(row2, config).value.1 == KeyOf(row1, config).value.1
    requires KeyOf(row2, config).value.2 == KeyOf(row1, config).value.2
    requires AssignIdStep(row2, column, config, AssignIdStep(row1, column, config, buckets).1).0.Ok?
    ensures NestedField.Descend(AssignIdStep(row2, column, config, AssignIdStep(row1, column, config, buckets).1).0.value, Debug + "." + column)
            == NestedField.Descend(AssignIdStep(row1, column, config, buckets).0.value, Debug + "." + column)
  {
    var (_, key, values) := KeyOf(row1, config).value;
    IdMaps.ObtainAgain(IdMaps.BucketOf(buckets, key), values);
  }

  /** In a valid table, two rows of the same bucket with different primary values get different ids. */
  lemma AssignIdDistinctValues(row1: ODict, row2: ODict, column: string, config: AssignIdConfig, buckets: Buckets)
    requires IdMaps.BucketsValid(buckets)
    requires AssignIdStep(row1, column, config, buckets).0.Ok?
    requires KeyOf(row2, config).Ok? && KeyOf(row1, config).Ok?
    requires KeyOf(row2, config).value.1 == KeyOf(row1, config).value.1
    requires KeyOf(row2, config).value.2 != KeyOf(row1, config).value.2
    requires AssignIdStep(row2, column, config, AssignIdStep(row1, column, config, buckets).1).0.Ok?
    ensures NestedField.Descend(AssignIdStep(row2, column, config, AssignIdStep(row1, column, config, buckets).1).0.value, Debug + "." + column)
            != NestedField.Descend(AssignIdStep(row1, column, config, buckets).0.value, Debug + "." + column)
  {
    var (_, key, values) := KeyOf(row1, config).value;
    IdMaps.EmptyValid<seq<Value>>();
    IdMaps.ObtainDistinct(IdMaps.BucketOf(buckets, key), values, KeyOf(row2, config).value.2);
  }

  // ---------------------------------------------------------------------------
  // convert: parsing the arguments

  /**
   * One comma-separated entry `dst=src`. Without `=`, a pick entry names itself and any other
   * entry raises ValueError; with more than one `=` the pieces do not unpack into two names.
   */
  function ParseEntry(field: string, bareToSelf: bool): (r: Result<(string, string)>)
    ensures '=' !in field ==> r == if bareToSelf then Ok((field, field)) else Err(ValueError(BadPair(field)))
    ensures r.Err? ==> r.error.ValueError?
  {
    if '=' in field then
      var parts := Strings.Split(field, "=");
      if |parts| == 2 then Ok((parts[0], parts[1])) else Err(ValueError(UnpackMismatch))
    else if bareToSelf then Ok((field, field))
    else Err(ValueError(BadPair(field)))
  }

  /** Parsing takes apart exactly the entry that joining `dst` and `src` with `=` builds. */
  lemma ParseEntryJoin(dst: string, src: string, bareToSelf: bool)
    requires '=' !in dst && '=' !in src
    ensures ParseEntry(dst + "=" + src, bareToSelf) == Ok((dst, src))
  {
    assert dst + "=" + src == dst + ['='] + src;
    Strings.SplitOnceJoined(dst, src, '=');
    Strings.SplitCharCons(dst + "=" + src, '=');
    Strings.SplitCharCons(src, '=');
  }

  /** An entry with `=` that parses is its two names joined by its only `=`. */
  lemma ParseEntrySplits(field: string, bareToSelf: bool)
    requires '=' in field && ParseEntry(field, bareToSelf).Ok?
    ensures var (dst, src) := ParseEntry(field, bareToSelf).value;
            field == dst + "=" + src && '=' !in dst && '=' !in src
  {
    Strings.SplitCharCons(field, '=');
    var (head, rest) := Strings.SplitOnce(field, '=');
    Strings.SplitCharCons(rest.value, '=');
    assert Strings.Split(field, "=") == [head] + Strings.Split(rest.value, "=");
    assert Strings.Split(rest.value, "=") == [rest.value];
    assert field == head + "=" + rest.value;
  }

  /** The entry loop of one argument: each parsed entry is stored, a later one overwriting an earlier one. */
  function PairsInto<V>(m: OMap<V>, fields: seq<string>, bareToSelf: bool, f: string -> V): Result<OMap<V>>
    decreases |fields|
  {
    if fields == [] then Ok(m)
    else
      var (dst, src) :- ParseEntry(fields[0], bareToSelf);
      PairsInto(Put(m, dst, f(src)), fields[1..], bareToSelf, f)
  }

  /** One argument of `convert`: an absent (empty) text adds nothing; otherwise its comma-separated entries are stored. */
  function Added<V>(m: OMap<V>, text: string, bareToSelf: bool, f: string -> V): Result<OMap<V>> {
    if text == "" then Ok(m) else PairsInto(m, Strings.Split(text, ","), bareToSelf, f)
  }

  method AddPairs<V>(m: OMap<V>, text: string, bareToSelf: bool, f: string -> V) returns (r: Result<OMap<V>>)
    ensures r == Added(m, text, bareToSelf, f)
  {
    if text == "" {
      return Ok(m);
    }
    var fields := Strings.Split(text, ",");
    var cur := m;
    for i := 0 to |fields|
      invariant PairsInto(cur, fields[i..], bareToSelf, f) == PairsInto(m, fields, bareToSelf, f)
    {
      assert fields[i..][1..] == fields[i + 1..];
      var e := ParseEntry(fields[i], bareToSelf);
      if e.Err? {
        return Err(e.error);
      }
      var (dst, src) := e.value;
      cur := Put(cur, dst, f(src));
    }
    assert fields[|fields|..] == [];
    return Ok(cur);
  }

  /** The entry loop raises exactly when one of its entries does not parse. */
  lemma {:induction false} PairsIntoFails<V>(m: OMap<V>, fields: seq<string>, bareToSelf: bool, f: string -> V)
    ensures PairsInto(m, fields, bareToSelf, f).Err?
            <==> exists i :: 0 <= i < |fields| && ParseEntry(fields[i], bareToSelf).Err?
    decreases |fields|
  {
    if fields != [] {
      var e := ParseEntry(fields[0], bareToSelf);
      if e.Ok? {
        PairsIntoFails(Put(m, e.value.0, f(e.value.1)), fields[1..], bareToSelf, f);
        if exists i :: 0 <= i < |fields| && ParseEntry(fields[i], bareToSelf).Err? {
          var i :| 0 <= i < |fields| && ParseEntry(fields[i], bareToSelf).Err?;
          assert fields[1..][i - 1] == fields[i];
        }
        assert forall i :: 0 <= i < |fields[1..]| ==> fields[1..][i] == fields[i + 1];
      }
    }
  }

  /** Keys already present stay present. */
  lemma {:induction false} PairsIntoKeepsKeys<V>(m: OMap<V>, fields: seq<string>, bareToSelf: bool, f: string -> V, k: string)
    requires PairsInto(m, fields, bareToSelf, f).Ok? && HasKey(m, k)
    ensures HasKey(PairsInto(m, fields, bareToSelf, f).value, k)
    decreases |fields|
  {
    if fields != [] {
      var entry := ParseEntry(fields[0], bareToSelf).value;
      var m' := Put(m, entry.0, f(entry.1));
      var rest := fields[1..];
      assert PairsInto(m, fields, bareToSelf, f) == PairsInto(m', rest, bareToSelf, f);
      PairsIntoKeepsKeys(m', rest, bareToSelf, f, k);
    }
  }

  /** Every entry parses, and its destination ends up as a key. */
  lemma {:induction false} PairsIntoDestinations<V>(m: OMap<V>, fields: seq<string>, bareToSelf: bool, f: string -> V)
    requires PairsInto(m, fields, bareToSelf, f).Ok?
    ensures forall i :: 0 <= i < |fields| ==>
              && ParseEntry(fields[i], bareToSelf).Ok?
              && HasKey(PairsInto(m, fields, bareToSelf, f).value, ParseEntry(fields[i], bareToSelf).value.0)
    decreases |fields|
  {
    if fields != [] {
      var entry := ParseEntry(fields[0], bareToSelf).value;
      var dst, src := entry.0, entry.1;
      var m' := Put(m, dst, f(src));
      var rest := fields[1..];
      var final := PairsInto(m', rest, bareToSelf, f).value;
      assert PairsInto(m, fields, bareToSelf, f).value == final;
      PairsIntoDestinations(m', rest, bareToSelf, f);
      PairsIntoKeepsKeys(m', rest, bareToSelf, f, dst);
      forall i | 0 <= i < |fields|
        ensures ParseEntry(fields[i], bareToSelf).Ok?
        ensures HasKey(final, ParseEntry(fields[i], bareToSelf).value.0)
      {
        if i > 0 {
          assert rest[i - 1] == fields[i];
        }
      }
    }
  }

  /** Every stored entry was there before, or holds `f` of a parsed source. */
  lemma {:induction false} PairsIntoValues<V>(m: OMap<V>, fields: seq<string>, bareToSelf: bool, f: string -> V)
    requires PairsInto(m, fields, bareToSelf, f).Ok?
    ensures var r := PairsInto(m, fields, bareToSelf, f).value;
            forall i :: 0 <= i < |r| ==> r[i] in m || exists src :: r[i].1 == f(src)
    decreases |fields|
  {
    if fields != [] {
      var entry := ParseEntry(fields[0], bareToSelf).value;
      var dst, src := entry.0, entry.1;
      var m' := Put(m, dst, f(src));
      var rest := fields[1..];
      var final := PairsInto(m', rest, bareToSelf, f).value;
      assert PairsInto(m, fields, bareToSelf, f).value == final;
      PairsIntoValues(m', rest, bareToSelf, f);
      PutEntries(m, dst, f(src));
      forall i | 0 <= i < |final| ensures final[i] in m || exists s :: final[i].1 == f(s) {
        if final[i] in m' && final[i] !in m {
          assert final[i] == (dst, f(src));
        }
      }
    }
  }

  /** What `Put` stores: the old entries, or the new one. */
  lemma PutEntries<V>(m: OMap<V>, k: string, v: V)
    ensures forall i :: 0 <= i < |Put(m, k, v)| ==> Put(m, k, v)[i] in m || Put(m, k, v)[i] == (k, v)
  {
  }

  function AsConstant(s: string): Value {
    Str(s)
  }

  function AsText(s: string): string {
    s
  }

  /** An id assignment given on the command line numbers one column and has no context. */
  function AsIdAssignment(s: string): AssignIdConfig {
    AssignIdConfig([s], [])
  }

  /** The process settings of `convert`; `map` is the pick list. */
  datatype ConvertConfig = ConvertConfig(
    constants: OMap<Value>,
    formats: OMap<string>,
    remap: OMap<string>,
    splitByNewline: OMap<string>,
    assignIds: OMap<AssignIdConfig>)

  /** The arguments of `convert` added to the loaded configuration, in the order `convert` reads them. */
  function ParseConvertArgs(config: ConvertConfig, constants: string, formats: string, pickup: string,
                            split: string, ids: string): Result<ConvertConfig>
  {
    var c :- Added(config.constants, constants, false, AsConstant);
    var f :- Added(config.formats, formats, false, AsText);
    var m :- Added(config.remap, pickup, true, AsText);
    var n :- Added(config.splitByNewline, split, false, AsText);
    var i :- Added(config.assignIds, ids, false, AsIdAssignment);
    Ok(ConvertConfig(c, f, m, n, i))
  }

  method SetupConvertArgs(config: ConvertConfig, constants: string, formats: string, pickup: string,
                          split: string, ids: string) returns (r: Result<ConvertConfig>)
    ensures r == ParseConvertArgs(config, constants, formats, pickup, split, ids)
  {
    var c := AddPairs(config.constants, constants, false, AsConstant);
    if c.Err? {
      return Err(c.error);
    }
    var f := AddPairs(config.formats, formats, false, AsText);
    if f.Err? {
      return Err(f.error);
    }
    var m := AddPairs(config.remap, pickup, true, AsText);
    if m.Err? {
      return Err(m.error);
    }
    var n := AddPairs(config.splitByNewline, split, false, AsText);
    if n.Err? {
      return Err(n.error);
    }
    var i := AddPairs(config.assignIds, ids, false, AsIdAssignment);
    if i.Err? {
      return Err(i.error);
    }
    return Ok(ConvertConfig(c.value, f.value, m.value, n.value, i.value));
  }

  /** Id assignments added from the command line have no context, so each bucket is selected by its primary column alone. */
  lemma AddedIdsHaveNoContext(assignIds: OMap<AssignIdConfig>, ids: string)
    requires forall i :: 0 <= i < |assignIds| ==> assignIds[i].1.context == []
    requires Added(assignIds, ids, false, AsIdAssignment).Ok?
    ensures var a := Added(assignIds, ids, false, AsIdAssignment).value;
            forall i :: 0 <= i < |a| ==> a[i].1.context == []
  {
    var a := Added(assignIds, ids, false, AsIdAssignment).value;
    if ids != "" {
      PairsIntoValues(assignIds, Strings.Split(ids, ","), false, AsIdAssignment);
    }
    forall i | 0 <= i < |a| ensures a[i].1.context == [] {
      if a[i] in assignIds {
        var j :| 0 <= j < |assignIds| && assignIds[j] == a[i];
      } else {
        var src :| a[i].1 == AsIdAssignment(src);
      }
    }
  }

  // ---------------------------------------------------------------------------
  // convert: the rows

  /** The key under `__debug__` that holds the input file name. */
  const FileKey := "__file__"

  /** The steps of `convert` before `assign_id`: snapshot, file name, constants, first pick, newline splits. */
  function PrepareRow(row: ODict, file: string, config: ConvertConfig): Result<ODict> {
    var r0 :- NestedField.SetNestedFieldValue(row, OriginalPath, Obj(row));
    var r1 :- NestedField.SetNestedFieldValue(r0, Debug + "." + FileKey, Str(file));
    var r2 :- if config.constants == [] then Ok(r1) else SetEach(r1, Debug + ".", config.constants);
    var r3 :- if config.remap == [] then Ok(r2) else Remap(r2, config.remap);
    if config.splitByNewline == [] then Ok(r3) else SplitEach(r3, r3, config.splitByNewline)
  }

  /** The steps of `convert` after `assign_id`: the second pick, then `__debug__` is dropped unless debugging. */
  function FinishRow(row: ODict, config: ConvertConfig, debug: bool): Result<ODict> {
    var r :- if config.remap == [] then Ok(row) else Remap(row, config.remap);
    Ok(if debug then r else Remove(r, Debug))
  }

  /** One row of `convert`, with the table of id buckets shared by all rows. */
  function ConvertRow(row: ODict, file: string, config: ConvertConfig, debug: bool, buckets: Buckets): (r: (Result<ODict>, Buckets))
    ensures !debug && r.0.Ok? ==> LacksDebug(r.0.value)
  {
    match PrepareRow(row, file, config)
    case Err(e) => (Err(e), buckets)
    case Ok(r) =>
      var (r', buckets') := AssignIdAll(r, config.assignIds, buckets);
      (if r'.Err? then r' else FinishRow(r'.value, config, debug), buckets')
  }

  /** The steps of `convert` before `assign_id`, one after another, stopping at the first error. */
  method Prepare(row: ODict, file: string, config: ConvertConfig) returns (w: Result<ODict>)
    ensures w == PrepareRow(row, file, config)
  {
    w := NestedField.SetNestedFieldValue(row, OriginalPath, Obj(row));
    if w.Err? {
      return Err(w.error);
    }
    w := NestedField.SetNestedFieldValue(w.value, Debug + "." + FileKey, Str(file));
    if w.Err? {
      return Err(w.error);
    }
    if config.constants != [] {
      w := MapConstants(w.value, config.constants);
      if w.Err? {
        return Err(w.error);
      }
    }
    if config.remap != [] {
      w := RemapColumns(w.value, config.remap);
      if w.Err? {
        return Err(w.error);
      }
    }
    if config.splitByNewline != [] {
      w := ApplyFieldsSplitByNewline(w.value, config.splitByNewline);
      if w.Err? {
        return Err(w.error);
      }
    }
  }

  method ProcessRow(row: ODict, file: string, config: ConvertConfig, debug: bool,
                    ids: IdMaps.IdContextMap<ContextKey, seq<Value>>) returns (r: Result<ODict>)
    modifies ids
    ensures (r, ids.buckets) == ConvertRow(row, file, config, debug, old(ids.buckets))
    ensures old(ids.AllValid()) ==> ids.AllValid()
  {
    var w := Prepare(row, file, config);
    if w.Err? {
      return w;
    }
    if config.assignIds != [] {
      w := AssignId(w.value, config.assignIds, ids);
      if w.Err? {
        return Err(w.error);
      }
    }
    if config.remap != [] {
      w := RemapColumns(w.value, config.remap);
      if w.Err? {
        return Err(w.error);
      }
    }
    r := if debug then w else Ok(Remove(w.value, Debug));
  }

  /** The row loop of one input file: the converted rows after `acc`, in input order. */
  function ConvertRowsFrom(rows: seq<ODict>, file: string, config: ConvertConfig, debug: bool, buckets: Buckets,
                           acc: seq<ODict>): (Result<seq<ODict>>, Buckets)
    decreases |rows|
  {
    if rows == [] then (Ok(acc), buckets)
    else
      var (x, buckets') := ConvertRow(rows[0], file, config, debug, buckets);
      if x.Err? then (Err(x.error), buckets')
      else ConvertRowsFrom(rows[1..], file, config, debug, buckets', acc + [x.value])
  }

  /** The row loop appends one converted row per input row after `acc`. */
  lemma {:induction false} ConvertRowsShape(rows: seq<ODict>, file: string, config: ConvertConfig, debug: bool, buckets: Buckets, acc: seq<ODict>)
    requires ConvertRowsFrom(rows, file, config, debug, buckets, acc).0.Ok?
    ensures var out := ConvertRowsFrom(rows, file, config, debug, buckets, acc).0.value;
            |out| == |acc| + |rows| && out[..|acc|] == acc
    decreases |rows|
  {
    if rows != [] {
      var (x, buckets') := ConvertRow(rows[0], file, config, debug, buckets);
      var acc' := acc + [x.value];
      ConvertRowsShape(rows[1..], file, config, debug, buckets', acc');
      var out := ConvertRowsFrom(rows, file, config, debug, buckets, acc).0.value;
      assert out == ConvertRowsFrom(rows[1..], file, config, debug, buckets', acc').0.value;
      assert out[..|acc|] == out[..|acc'|][..|acc|];
    }
  }

  /** The row has no `__debug__` entry. */
  predicate LacksDebug(row: ODict) {
    forall j :: 0 <= j < |row| ==> row[j].0 != Debug
  }

  /** No row of `rows` from position `from` on has a `__debug__` entry. */
  predicate NoDebugFrom(rows: seq<ODict>, from: nat) {
    forall i :: from <= i < |rows| ==> LacksDebug(rows[i])
  }

  /** Without debug output, no converted row of a file keeps `__debug__`. */
  lemma {:induction false} ConvertRowsNoDebug(rows: seq<ODict>, file: string, config: ConvertConfig, buckets: Buckets, acc: seq<ODict>)
    requires ConvertRowsFrom(rows, file, config, false, buckets, acc).0.Ok?
    ensures NoDebugFrom(ConvertRowsFrom(rows, file, config, false, buckets, acc).0.value, |acc|)
    decreases |rows|
  {
    if rows != [] {
      var (x, buckets') := ConvertRow(rows[0], file, config, false, buckets);
      var acc' := acc + [x.value];
      ConvertRowsNoDebug(rows[1..], file, config, buckets', acc');
      ConvertRowsShape(rows[1..], file, config, false, buckets', acc');
      var out := ConvertRowsFrom(rows, file, config, false, buckets, acc).0.value;
      assert out == ConvertRowsFrom(rows[1..], file, config, false, buckets', acc').0.value;
      assert out[|acc|] == x.value by {
        assert out[..|acc'|] == acc';
        assert acc'[|acc|] == x.value;
      }
      NoDebugExtend(out, |acc|);
    }
  }

  lemma NoDebugExtend(rows: seq<ODict>, from: nat)
    requires from < |rows| && LacksDebug(rows[from]) && NoDebugFrom(rows, from + 1)
    ensures NoDebugFrom(rows, from)
  {
  }

  method ConvertFile(rows: seq<ODict>, file: string, config: ConvertConfig, debug: bool,
                     ids: IdMaps.IdContextMap<ContextKey, seq<Value>>) returns (r: Result<seq<ODict>>)
    modifies ids
    ensures (r, ids.buckets) == ConvertRowsFrom(rows, file, config, debug, old(ids.buckets), [])
    ensures old(ids.AllValid()) ==> ids.AllValid()
  {
    var newRows := [];
    for i := 0 to |rows|
      invariant ConvertRowsFrom(rows[i..], file, config, debug, ids.buckets, newRows)
                == ConvertRowsFrom(rows, file, config, debug, old(ids.buckets), [])
      invariant old(ids.AllValid()) ==> ids.AllValid()
    {
      assert rows[i..][1..] == rows[i + 1..];
      var w := ProcessRow(rows[i], file, config, debug, ids);
      if w.Err? {
        return Err(w.error);
      }
      newRows := newRows + [w.value];
    }
    assert rows[|rows|..] == [];
    return Ok(newRows);
  }

  /**
   * The file loop: the rows of each file, one file after the other. A file without rows raises
   * IndexError before its first row is read, because its first row is logged.
   */
  function ConvertFilesFrom(files: seq<(string, seq<ODict>)>, config: ConvertConfig, debug: bool, buckets: Buckets,
                            acc: seq<ODict>): Result<seq<ODict>>
    decreases |files|
  {
    if files == [] then Ok(acc)
    else if files[0].1 == [] then Err(IndexError)
    else
      var (r, buckets') := ConvertRowsFrom(files[0].1, files[0].0, config, debug, buckets, []);
      if r.Err? then Err(r.error)
      else ConvertFilesFrom(files[1..], config, debug, buckets', acc + r.value)
  }

  /**
   * `convert`: the arguments are parsed into the configuration, every row of every file is converted
   * with one shared id table, and the rows are concatenated; a file without rows raises IndexError and
   * concatenating no tables raises ValueError.
   */
  function Convert(files: seq<(string, seq<ODict>)>, config: ConvertConfig, constants: string, formats: string,
                   pickup: string, split: string, ids: string, debug: bool): Result<seq<ODict>>
  {
    var cfg :- ParseConvertArgs(config, constants, formats, pickup, split, ids);
    if files == [] then Err(ValueError(NothingToConcatenate))
    else ConvertFilesFrom(files, cfg, debug, map[], [])
  }

  method ConvertTables(files: seq<(string, seq<ODict>)>, config: ConvertConfig, constants: string, formats: string,
                       pickup: string, split: string, ids: string, debug: bool) returns (r: Result<seq<ODict>>)
    ensures r == Convert(files, config, constants, formats, pickup, split, ids, debug)
  {
    var cfg := SetupConvertArgs(config, constants, formats, pickup, split, ids);
    if cfg.Err? {
      return Err(cfg.error);
    }
    var idContextMap := new IdMaps.IdContextMap<ContextKey, seq<Value>>();
    var all := [];
    for i := 0 to |files|
      invariant ConvertFilesFrom(files[i..], cfg.value, debug, idContextMap.buckets, all)
                == ConvertFilesFrom(files, cfg.value, debug, map[], [])
    {
      assert files[i..][1..] == files[i + 1..];
      if files[i].1 == [] {
        return Err(IndexError);
      }
      var rows := ConvertFile(files[i].1, files[i].0, cfg.value, debug, idContextMap);
      if rows.Err? {
        return Err(rows.error);
      }
      all := all + rows.value;
    }
    assert files[|files|..] == [];
    if files == [] {
      return Err(ValueError(NothingToConcatenate));
    }
    return Ok(all);
  }

  /** The number of input rows. */
  function TotalRows(files: seq<(string, seq<ODict>)>): nat {
    if files == [] then 0 else |files[0].1| + TotalRows(files[1..])
  }

  /** With a pick list and without debugging, an output row holds exactly picked columns. */
  lemma ConvertRowPicked(row: ODict, file: string, config: ConvertConfig, buckets: Buckets)
    requires config.remap != []
    requires ConvertRow(row, file, config, false, buckets).0.Ok?
    ensures var r := ConvertRow(row, file, config, false, buckets).0.value;
            forall i :: 0 <= i < |r| ==> exists j :: 0 <= j < |config.remap| && r[i].0 == Head(config.remap[j].0)
  {
    var prepared := PrepareRow(row, file, config).value;
    var withIds := AssignIdAll(prepared, config.assignIds, buckets).0.value;
    RemapKeys(withIds, config.remap);
  }

  lemma {:induction false} ConvertFilesFromShape(files: seq<(string, seq<ODict>)>, config: ConvertConfig, debug: bool,
                                                 buckets: Buckets, acc: seq<ODict>)
    requires ConvertFilesFrom(files, config, debug, buckets, acc).Ok?
    ensures var r := ConvertFilesFrom(files, config, debug, buckets, acc).value;
            && |r| == |acc| + TotalRows(files) && r[..|acc|] == acc
            && (!debug ==> NoDebugFrom(r, |acc|))
    decreases |files|
  {
    if files != [] {
      var (x, buckets') := ConvertRowsFrom(files[0].1, files[0].0, config, debug, buckets, []);
      ConvertFilesFromShape(files[1..], config, debug, buckets', acc + x.value);
      ConvertRowsShape(files[0].1, files[0].0, config, debug, buckets, []);
      if !debug {
        ConvertRowsNoDebug(files[0].1, files[0].0, config, buckets, []);
      }
      var r := ConvertFilesFrom(files, config, debug, buckets, acc).value;
      assert r[..|acc| + |x.value|] == acc + x.value;
      assert r[..|acc|] == (acc + x.value)[..|acc|];
      if !debug {
        forall i | |acc| <= i < |r| ensures LacksDebug(r[i]) {
          if i < |acc| + |x.value| {
            assert r[i] == (acc + x.value)[i] == x.value[i - |acc|];
          }
        }
      }
    }
  }

  /**
   * `convert` produces one row per input row, in input order, without `__debug__` unless debugging;
   * it succeeds only when there were input files and every one of them had rows.
   */
  lemma ConvertShape(files: seq<(string, seq<ODict>)>, config: ConvertConfig, constants: string, formats: string,
                     pickup: string, split: string, ids: string, debug: bool)
    requires Convert(files, config, constants, formats, pickup, split, ids, debug).Ok?
    ensures var r := Convert(files, config, constants, formats, pickup, split, ids, debug).value;
            && files != [] && (forall k :: 0 <= k < |files| ==> files[k].1 != []) && |r| == TotalRows(files)
            && (!debug ==> forall i :: 0 <= i < |r| ==> !HasKey(r[i], Debug))
  {
    var cfg := ParseConvertArgs(config, constants, formats, pickup, split, ids).value;
    ConvertFilesFromShape(files, cfg, debug, map[], []);
    ConvertFilesFromNonEmpty(files, cfg, debug, map[], []);
  }

  /** A file without rows stops the file loop with an error: IndexError at that file, or an earlier file's error. */
  lemma {:induction false} ConvertFilesFromEmptyFile(files: seq<(string, seq<ODict>)>, config: ConvertConfig, debug: bool,
                                                     buckets: Buckets, acc: seq<ODict>, k: nat)
    requires k < |files| && files[k].1 == []
    ensures ConvertFilesFrom(files, config, debug, buckets, acc).Err?
    decreases k
  {
    if files[0].1 == [] {
      FilesFromEmptyHead(files, config, debug, buckets, acc);
    } else {
      assert k > 0 && files[1..][k - 1] == files[k];
      var r, buckets' := FilesFromStep(files, config, debug, buckets, acc);
      if r.Ok? {
        ConvertFilesFromEmptyFile(files[1..], config, debug, buckets', acc + r.value, k - 1);
      }
    }
  }

  /** A first file without rows raises IndexError. */
  lemma FilesFromEmptyHead(files: seq<(string, seq<ODict>)>, config: ConvertConfig, debug: bool,
                           buckets: Buckets, acc: seq<ODict>)
    requires files != [] && files[0].1 == []
    ensures ConvertFilesFrom(files, config, debug, buckets, acc) == Err(IndexError)
  {
  }

  /** One turn of the file loop over a file with rows. */
  lemma FilesFromStep(files: seq<(string, seq<ODict>)>, config: ConvertConfig, debug: bool,
                      buckets: Buckets, acc: seq<ODict>) returns (r: Result<seq<ODict>>, buckets': Buckets)
    requires files != [] && files[0].1 != []
    ensures (r, buckets') == ConvertRowsFrom(files[0].1, files[0].0, config, debug, buckets, [])
    ensures r.Err? ==> ConvertFilesFrom(files, config, debug, buckets, acc) == Err(r.error)
    ensures r.Ok? ==> ConvertFilesFrom(files, config, debug, buckets, acc)
                      == ConvertFilesFrom(files[1..], config, debug, buckets', acc + r.value)
  {
    r, buckets' := ConvertRowsFrom(files[0].1, files[0].0, config, debug, buckets, []).0,
                   ConvertRowsFrom(files[0].1, files[0].0, config, debug, buckets, []).1;
  }

  /** A file loop that succeeds read rows from every file. */
  lemma ConvertFilesFromNonEmpty(files: seq<(string, seq<ODict>)>, config: ConvertConfig, debug: bool,
                                 buckets: Buckets, acc: seq<ODict>)
    requires ConvertFilesFrom(files, config, debug, buckets, acc).Ok?
    ensures forall k :: 0 <= k < |files| ==> files[k].1 != []
  {
    forall k | 0 <= k < |files| ensures files[k].1 != [] {
      if files[k].1 == [] {
        ConvertFilesFromEmptyFile(files, config, debug, buckets, acc, k);
      }
    }
  }

  /** A header-only first file makes `convert` raise IndexError once the arguments parse. */
  lemma EmptyFirstFileRaises(files: seq<(string, seq<ODict>)>, config: ConvertConfig, constants: string, formats: string,
                             pickup: string, split: string, ids: string, debug: bool)
    requires ParseConvertArgs(config, constants, formats, pickup, split, ids).Ok?
    requires files != [] && files[0].1 == []
    ensures Convert(files, config, constants, formats, pickup, split, ids, debug) == Err(IndexError)
  {
  }
}

/**
 * The row of the later versions (`tabpro`): a flat view keyed by dotted paths and
 * a nested view of dictionaries, both written by `row[key] = value`.
 * Reads go through the nested view, length and iteration through the flat one.
 */
module Rows {

  import opened Wrappers
  import opened Values
  import NestedField
  import FieldOps
  import Lookup
  import Strings

  /** The two views of a row at one moment. */
  datatype State = State(flat: ODict, nested: ODict)

  /**
   * `row[key] = value`: the nested view is written first, and a TypeError there leaves both
   * views as they were; the flat view is then expanded, and its depth guard can leave some of
   * the leaves written.
   */
  function Assign(s: State, key: string, value: Value): (State, Outcome) {
    match NestedField.SetNestedFieldValue(s.nested, key, value)
    case Err(e) => (s, Fail(e))
    case Ok(n) =>
      var (f, o) := FieldOps.FlatWrite(s.flat, key, value, 0);
      (State(f, n), o)
  }

  /** The loop of `from_dict` from entry `i` on: each entry assigned in order, stopping at the first exception. */
  function BuildFrom(s: State, data: ODict, i: nat): (State, Outcome)
    requires i <= |data|
    decreases |data| - i
  {
    if i == |data| then (s, Pass)
    else
      var (s', o) := Assign(s, data[i].0, data[i].1);
      if o.Fail? then (s', o) else BuildFrom(s', data, i + 1)
  }

  /** `Row.from_dict(data)`: a new row with every entry of `data` assigned. */
  function Build(data: ODict): (State, Outcome) {
    BuildFrom(State([], []), data, 0)
  }

  /** A flat view as writes keep it: no repeated key and no dictionary value. */
  predicate Flat(flat: ODict) {
    Distinct(flat) && NoObjects(flat)
  }

  class Row {
    var flat: ODict
    var nested: ODict

    function Snapshot(): State
      reads this
    {
      State(flat, nested)
    }

    /** `Row()`: both views empty, so nothing is found and the length is 0. */
    constructor()
      ensures flat == [] && nested == []
      ensures Len() == 0
      ensures forall key :: !Contains(key)
    {
      flat, nested := [], [];
    }

    /** `Row(flat=..., nested=...)`, as the table converter builds its rows. */
    constructor Of(s: State)
      ensures Snapshot() == s
    {
      flat, nested := s.flat, s.nested;
    }

    /** `key in row`: the dotted getter finds `key` in the nested view. */
    predicate Contains(key: string)
      reads this
    {
      Lookup.Resolve(Obj(nested), key).Some?
    }

    /** `row.get(key, default)` */
    function Get(key: string, default: Value): (r: Value)
      reads this
      ensures Contains(key) ==> Lookup.Resolve(Obj(nested), key) == Some(r)
      ensures !Contains(key) ==> r == default
    {
      match Lookup.Resolve(Obj(nested), key)
      case Some(v) => v
      case None => default
    }

    /** `row[key]`: what `get` finds, or KeyError. */
    function GetItem(key: string): (r: Result<Value>)
      reads this
      ensures r.Ok? <==> Contains(key)
      ensures r.Ok? ==> forall d :: r.value == Get(key, d)
      ensures r.Err? ==> r.error == KeyError(key)
    {
      match Lookup.Resolve(Obj(nested), key)
      case Some(v) => Ok(v)
      case None => Err(KeyError(key))
    }

    /** `len(row)`: the number of flat keys. */
    function Len(): (n: nat)
      reads this
      ensures n == |Iter()|
    {
      |flat|
    }

    /** `iter(row)`: the flat keys in insertion order. */
    function Iter(): (ks: seq<string>)
      reads this
      ensures |ks| == |flat| && forall i :: 0 <= i < |flat| ==> ks[i] == flat[i].0
    {
      Keys(flat)
    }

    /** `row[key] = value` */
    method SetItem(key: string, value: Value) returns (o: Outcome)
      modifies this
      ensures (Snapshot(), o) == Assign(old(Snapshot()), key, value)
    {
      var n := NestedField.SetNestedFieldValue(nested, key, value);
      if n.Err? {
        return Fail(n.error);
      }
      nested := n.value;
      flat, o := FieldOps.SetFlatFieldValue(flat, key, value, 0);
    }

    /** `Row.from_dict(data)` */
    static method FromDict(data: ODict) returns (row: Row, o: Outcome)
      ensures fresh(row)
      ensures (row.Snapshot(), o) == Build(data)
    {
      row := new Row();
      var i := 0;
      while i < |data|
        invariant 0 <= i <= |data|
        invariant fresh(row)
        invariant BuildFrom(row.Snapshot(), data, i) == Build(data)
      {
        o := row.SetItem(data[i].0, data[i].1);
        if o.Fail? {
          return;
        }
        i := i + 1;
      }
      o := Pass;
    }

    /** `row.clone()`: a new row rebuilt from this row's flat view; this row is not changed. */
    method Clone() returns (c: Row, o: Outcome)
      ensures fresh(c)
      ensures (c.Snapshot(), o) == Build(flat)
    {
      c, o := FromDict(flat);
    }
  }

  /** `row[key] = value` raises exactly when the nested path crosses a non-dictionary or the value nests too deeply. */
  lemma AssignFails(s: State, key: string, value: Value)
    ensures Assign(s, key, value).1.Fail?
            <==> !NestedField.Writable(s.nested, key) || !FieldOps.DepthOK(value, 0)
    ensures !NestedField.Writable(s.nested, key) ==> Assign(s, key, value) == (s, Fail(TypeError))
    ensures NestedField.Writable(s.nested, key) && !FieldOps.DepthOK(value, 0)
            ==> Assign(s, key, value).1 == Fail(ValueError(DepthTooHigh))
  {
    FieldOps.FlatWritePasses(s.flat, key, value, 0);
    if NestedField.Writable(s.nested, key) && !FieldOps.DepthOK(value, 0) {
      FlatWriteFails(s.flat, key, value, 0);
    }
  }

  /** The only exception the flat expansion raises is the depth guard's. */
  lemma {:induction false} FlatWriteFails(flat: ODict, target: string, value: Value, depth: int)
    ensures FieldOps.FlatWrite(flat, target, value, depth).1.Fail?
            ==> FieldOps.FlatWrite(flat, target, value, depth).1 == Fail(ValueError(DepthTooHigh))
    decreases value, 1, 0
  {
    if depth <= FieldOps.MaxDepth && value.Obj? {
      FlatWriteEachFails(flat, target, value.fields, 0, depth + 1);
    }
  }

  lemma {:induction false} FlatWriteEachFails(flat: ODict, target: string, fields: seq<(string, Value)>, i: nat, depth: int)
    requires i <= |fields|
    ensures FieldOps.FlatWriteEach(flat, target, fields, i, depth).1.Fail?
            ==> FieldOps.FlatWriteEach(flat, target, fields, i, depth).1 == Fail(ValueError(DepthTooHigh))
    decreases Obj(fields), 0, |fields| - i
  {
    if i < |fields| {
      assert fields[i] in fields;
      var (f, o) := FieldOps.FlatWrite(flat, target + "." + fields[i].0, fields[i].1, depth);
      FlatWriteFails(flat, target + "." + fields[i].0, fields[i].1, depth);
      if o.Pass? {
        FlatWriteEachFails(f, target, fields, i + 1, depth);
      }
    }
  }

  /**
   * After `row[key] = value` succeeds on the nested side, `row[key]` reads the value back
   * (provided no literal dotted key shadows the path); a scalar or a list is also stored under
   * `key` in the flat view.
   */
  lemma AssignReadsBack(s: State, key: string, value: Value)
    requires NestedField.Writable(s.nested, key) && NestedField.NoDottedShadow(s.nested, key)
    ensures Lookup.Resolve(Obj(Assign(s, key, value).0.nested), key) == Some(value)
    ensures !value.Obj? ==> Assign(s, key, value).1 == Pass && Get(Assign(s, key, value).0.flat, key) == Some(value)
  {
    Lookup.ResolveAfterSet(s.nested, key, value);
  }

  /** Assigning a dictionary writes one flat entry per leaf, in order, and keeps the flat view flat. */
  lemma AssignExpands(s: State, key: string, value: Value)
    requires NestedField.Writable(s.nested, key) && FieldOps.DepthOK(value, 0)
    ensures Assign(s, key, value).1 == Pass
    ensures Assign(s, key, value).0.flat == FieldOps.PutAll(s.flat, FieldOps.Leaves(key, value))
  {
    FieldOps.FlatWritePasses(s.flat, key, value, 0);
    FieldOps.FlatWriteLeaves(s.flat, key, value, 0);
  }

  /** Whatever is assigned, and even when it raises, no flat entry holds a dictionary and no flat key repeats. */
  lemma AssignKeepsFlat(s: State, key: string, value: Value)
    requires Flat(s.flat)
    ensures Flat(Assign(s, key, value).0.flat)
  {
    FieldOps.FlatWriteKeepsFlat(s.flat, key, value, 0);
  }

  /** A flat dictionary rebuilt by `from_dict` without an exception has exactly the entries it was built from. */
  lemma BuildCopiesFlat(data: ODict)
    requires Flat(data) && Build(data).1 == Pass
    ensures Build(data).0.flat == data
  {
    BuildFromFlat(State([], []), data, 0);
  }

  lemma {:induction false} BuildFromFlat(s: State, data: ODict, i: nat)
    requires i <= |data| && Flat(data) && s.flat == data[..i]
    requires BuildFrom(s, data, i).1 == Pass
    ensures BuildFrom(s, data, i).0.flat == data
    decreases |data| - i
  {
    if i == |data| {
      assert data[..i] == data;
    } else {
      var (s', o) := Assign(s, data[i].0, data[i].1);
      assert o == Pass && BuildFrom(s, data, i) == BuildFrom(s', data, i + 1);
      PrefixLacksKey(data, i);
      BuildFromStep(s, data, i);
      BuildFromFlat(s', data, i + 1);
    }
  }

  /** One entry of a flat dictionary rebuilt: the flat view grows by exactly that entry. */
  lemma BuildFromStep(s: State, data: ODict, i: nat)
    requires i < |data| && s.flat == data[..i]
    requires !HasKey(data[..i], data[i].0) && !data[i].1.Obj?
    requires Assign(s, data[i].0, data[i].1).1 == Pass
    ensures Assign(s, data[i].0, data[i].1).0.flat == data[..i + 1]
  {
    var k, v := data[i].0, data[i].1;
    assert Assign(s, k, v).0.flat == Put(data[..i], k, v) by {
      AssignScalarFlat(s, k, v);
    }
    assert Put(data[..i], k, v) == data[..i + 1] by {
      PutAbsent(data[..i], k, v);
      PrefixSnoc(data, i);
    }
  }

  /** In a dictionary without repeated keys, no entry's key occurs before it. */
  lemma PrefixLacksKey(data: ODict, i: nat)
    requires i < |data| && Distinct(data)
    ensures !HasKey(data[..i], data[i].0)
  {
    forall j | 0 <= j < i ensures data[..i][j].0 != data[i].0 {
      assert data[..i][j] == data[j];
    }
  }

  /** Writing a scalar or a list that passes adds it to the flat view as one entry. */
  lemma AssignScalarFlat(s: State, k: string, v: Value)
    requires !v.Obj?
    ensures Assign(s, k, v).1.Pass? ==> Assign(s, k, v).0.flat == Put(s.flat, k, v)
  {
  }

  /**
   * The flat view keeps stale keys: after `row['a'] = 1` and `row['a'] = {'b': 1}` it holds both
   * `a` and `a.b`, and rebuilding a row from it, as `clone` does, raises TypeError.
   */
  lemma StaleFlatKey()
    ensures var s1 := Assign(State([], []), "a", Int(1)).0;
            var s2 := Assign(s1, "a", Obj([("b", Int(1))])).0;
            && s2.flat == [("a", Int(1)), ("a.b", Int(1))]
            && Build(s2.flat).1 == Fail(TypeError)
  {
    var s1 := FirstWrite();
    OverwriteKeepsStale(s1);
    StaleRebuildFails(s1);
  }

  /** `row['a'] = 1` on an empty row. */
  lemma FirstWrite() returns (s1: State)
    ensures s1 == Assign(State([], []), "a", Int(1)).0 && s1 == State([("a", Int(1))], [("a", Int(1))])
    ensures Assign(State([], []), "a", Int(1)).1 == Pass
  {
    assert Strings.SplitOnce("a", '.') == ("a", None);
    s1 := Assign(State([], []), "a", Int(1)).0;
  }

  /** `row['a'] = {'b': 1}` then writes `a.b` to the flat view and leaves `a` in it. */
  lemma OverwriteKeepsStale(s1: State)
    requires s1 == State([("a", Int(1))], [("a", Int(1))])
    ensures Assign(s1, "a", Obj([("b", Int(1))])).0.flat == [("a", Int(1)), ("a.b", Int(1))]
  {
    assert Strings.SplitOnce("a", '.') == ("a", None);
    var f0: ODict := [("a", Int(1))];
    var f1: ODict := [("a", Int(1)), ("a.b", Int(1))];
    var fields: ODict := [("b", Int(1))];
    assert "a" + "." + fields[0].0 == "a.b";
    assert Put(f0, "a.b", Int(1)) == f1 by {
      assert !HasKey(f0, "a.b");
    }
    assert FieldOps.FlatWrite(f0, "a.b", Int(1), 1) == (f1, Pass);
    assert FieldOps.FlatWriteEach(f1, "a", fields, 1, 1) == (f1, Pass);
    assert FieldOps.FlatWriteEach(f0, "a", fields, 0, 1) == (f1, Pass);
    assert FieldOps.FlatWrite(s1.flat, "a", Obj(fields), 0).0 == f1;
  }

  /** Rebuilding from `a` and `a.b`: the second write finds a number at `a` and raises TypeError. */
  lemma StaleRebuildFails(s1: State)
    requires s1 == Assign(State([], []), "a", Int(1)).0 && s1 == State([("a", Int(1))], [("a", Int(1))])
    requires Assign(State([], []), "a", Int(1)).1 == Pass
    ensures Build([("a", Int(1)), ("a.b", Int(1))]).1 == Fail(TypeError)
  {
    var f1: ODict := [("a", Int(1)), ("a.b", Int(1))];
    Strings.SplitOnceJoined("a", "b", '.');
    assert "a" + ['.'] + "b" == "a.b";
    assert !NestedField.Writable(s1.nested, "a.b");
    AssignFails(s1, "a.b", Int(1));
    assert BuildFrom(s1, f1, 1) == (s1, Fail(TypeError));
  }
}

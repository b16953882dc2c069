/**
 * Surrogate ids of the table processor (`get_key_value`, `get_id`, `set_id`, `assign_id`):
 * a row's key is found by searching its context and primary columns, and ids are drawn
 * from the `IdMap` of a bucket of an `IdContextMap`.
 */
module IdAssign {

  import opened Wrappers
  import opened Values
  import IdMaps
  import Lookup
  import Rows
  import Actions
  import Converter

  /** `AssignIdConfig`: where the id goes, and the columns that select and number it. */
  datatype AssignIdConfig = AssignIdConfig(target: string, primary: seq<string>, context: seq<string>)

  /** The values of `columns` in the nested row, in order; the first column not found raises KeyError. */
  function SearchAll(nested: ODict, columns: seq<string>): (r: Result<seq<Value>>)
    ensures r.Ok? ==> |r.value| == |columns| && forall i :: 0 <= i < |columns| ==> Lookup.Search(nested, columns[i]) == Some(r.value[i])
    ensures r.Err? ==> exists i :: 0 <= i < |columns| && r.error == KeyError(columns[i]) && Lookup.Search(nested, columns[i]).None?
    decreases |columns|
  {
    if columns == [] then Ok([])
    else
      match Lookup.Search(nested, columns[0])
      case None => Err(KeyError(columns[0]))
      case Some(v) =>
        var tail := columns[1..];
        var rest := SearchAll(nested, tail);
        assert forall j :: 0 <= j < |tail| ==> tail[j] == columns[j + 1];
        if rest.Err? then Err(rest.error)
        else
          var vs := [v] + rest.value;
          assert forall j :: 0 <= j < |rest.value| ==> vs[j + 1] == rest.value[j];
          Ok(vs)
  }

  /**
   * `get_key_value(..., row, primary, context)`: the bucket triple (context columns, context
   * values, primary columns) and the primary values, the values in the form the id dictionaries
   * compare them. No primary column raises ValueError; the context columns are searched before
   * the primary ones.
   */
  function KeyValue(nested: ODict, primary: seq<string>, context: seq<string>): (r: Result<(Converter.ContextKey, seq<Value>)>)
    ensures primary == [] <==> r == Err(ValueError(NoPrimaryColumns))
    ensures primary != [] && SearchAll(nested, context).Err? ==> r == Err(SearchAll(nested, context).error)
    ensures r.Ok? ==> r.value.0.0 == context && r.value.0.2 == primary
    ensures r.Ok? ==> && SearchAll(nested, context).Ok? && r.value.0.1 == Converter.HashKeys(SearchAll(nested, context).value)
                      && SearchAll(nested, primary).Ok? && r.value.1 == Converter.HashKeys(SearchAll(nested, primary).value)
  {
    if primary == [] then Err(ValueError(NoPrimaryColumns))
    else
      var contextValues :- SearchAll(nested, context);
      var primaryValues :- SearchAll(nested, primary);
      Ok(((context, Converter.HashKeys(contextValues), primary), Converter.HashKeys(primaryValues)))
  }

  /** `get_key_value`, with its two search loops. */
  method GetKeyValue(row: Rows.Row, primary: seq<string>, context: seq<string>) returns (r: Result<(Converter.ContextKey, seq<Value>)>)
    ensures r == KeyValue(row.nested, primary, context)
  {
    if |primary| == 0 {
      return Err(ValueError(NoPrimaryColumns));
    }
    var contextValues := SearchColumns(row.nested, context);
    if contextValues.Err? {
      return Err(contextValues.error);
    }
    var primaryValues := SearchColumns(row.nested, primary);
    if primaryValues.Err? {
      return Err(primaryValues.error);
    }
    return Ok(((context, Converter.HashKeys(contextValues.value), primary), Converter.HashKeys(primaryValues.value)));
  }

  /** One search loop of `get_key_value`. */
  method SearchColumns(nested: ODict, columns: seq<string>) returns (r: Result<seq<Value>>)
    ensures r == SearchAll(nested, columns)
  {
    var values := [];
    assert columns[0..] == columns;
    PrependEmpty(SearchAll(nested, columns));
    for i := 0 to |columns|
      invariant SearchAll(nested, columns) == Prepend(values, SearchAll(nested, columns[i..]))
    {
      var found := Lookup.Search(nested, columns[i]);
      if found.None? {
        return Err(KeyError(columns[i]));
      }
      SearchAllCons(nested, columns[i..], values);
      assert columns[i..][1..] == columns[i + 1..];
      values := values + [found.value];
    }
    assert columns[|columns|..] == [];
    assert values + [] == values;
    return Ok(values);
  }

  /** `values` in front of a successful search; an error passes through. */
  function Prepend(values: seq<Value>, r: Result<seq<Value>>): Result<seq<Value>> {
    match r
    case Ok(vs) => Ok(values + vs)
    case Err(e) => Err(e)
  }

  lemma PrependEmpty(r: Result<seq<Value>>)
    ensures Prepend([], r) == r
  {
    if r.Ok? {
      assert [] + r.value == r.value;
    }
  }

  lemma SearchAllCons(nested: ODict, columns: seq<string>, values: seq<Value>)
    requires columns != [] && Lookup.Search(nested, columns[0]).Some?
    ensures Prepend(values, SearchAll(nested, columns))
            == Prepend(values + [Lookup.Search(nested, columns[0]).value], SearchAll(nested, columns[1..]))
  {
    var v := Lookup.Search(nested, columns[0]).value;
    match SearchAll(nested, columns[1..])
    case Ok(vs) =>
      assert values + ([v] + vs) == values + [v] + vs;
    case Err(e) =>
  }

  /**
   * Looking `k` up in bucket `b`, allocating when new. An unhashable bucket raises TypeError
   * before the bucket is created; an unhashable `k` raises it after.
   */
  function ObtainIn<B, K>(buckets: map<B, IdMaps.IdMap<K>>, b: B, bHashable: bool, k: K, kHashable: bool)
    : (r: (Result<(int, bool)>, map<B, IdMaps.IdMap<K>>))
    ensures r.0.Err? <==> !bHashable || !kHashable
    ensures r.0.Ok? ==> var (m', id, existed) := IdMaps.Obtain(IdMaps.BucketOf(buckets, b), k);
                        r.0.value == (id, existed) && r.1 == buckets[b := m']
  {
    if !bHashable then (Err(TypeError), buckets)
    else
      var m := IdMaps.BucketOf(buckets, b);
      if !kHashable then (Err(TypeError), buckets[b := m])
      else
        var (m', id, existed) := IdMaps.Obtain(m, k);
        (Ok((id, existed)), buckets[b := m'])
  }

  /**
   * `get_id` as written: the result of `get_key_value` is unpacked in swapped order, so the bucket
   * is chosen by the primary values and the triple (with the context values) is what gets numbered.
   */
  function IdOfAsWritten(buckets: map<seq<Value>, IdMaps.IdMap<Converter.ContextKey>>, nested: ODict, primary: seq<string>, context: seq<string>)
    : (Result<(int, bool)>, map<seq<Value>, IdMaps.IdMap<Converter.ContextKey>>)
  {
    match KeyValue(nested, primary, context)
    case Err(e) => (Err(e), buckets)
    case Ok((key, values)) =>
      ObtainIn(buckets, values, Converter.AllHashable(values), key, Converter.AllHashable(key.1))
  }

  /** `get_id` as intended: the bucket is the triple and the primary values are numbered in it. */
  function IdOf(buckets: Converter.Buckets, nested: ODict, primary: seq<string>, context: seq<string>)
    : (Result<(int, bool)>, Converter.Buckets)
  {
    match KeyValue(nested, primary, context)
    case Err(e) => (Err(e), buckets)
    case Ok((key, values)) =>
      ObtainIn(buckets, key, Converter.AllHashable(key.1), values, Converter.AllHashable(values))
  }

  method GetIdAsWritten(ids: IdMaps.IdContextMap<seq<Value>, Converter.ContextKey>, row: Rows.Row, primary: seq<string>, context: seq<string>)
    returns (r: Result<(int, bool)>)
    modifies ids
    ensures (r, ids.buckets) == IdOfAsWritten(old(ids.buckets), row.nested, primary, context)
  {
    var kv := GetKeyValue(row, primary, context);
    if kv.Err? {
      return Err(kv.error);
    }
    var (key, values) := kv.value;
    if !Converter.AllHashable(values) {
      return Err(TypeError);
    }
    if !Converter.AllHashable(key.1) {
      ids.Touch(values);
      return Err(TypeError);
    }
    var id, existed := ids.GetId(values, key);
    r := Ok((id, existed));
  }

  method GetId(ids: IdMaps.IdContextMap<Converter.ContextKey, seq<Value>>, row: Rows.Row, primary: seq<string>, context: seq<string>)
    returns (r: Result<(int, bool)>)
    modifies ids
    ensures (r, ids.buckets) == IdOf(old(ids.buckets), row.nested, primary, context)
    ensures old(ids.AllValid()) ==> ids.AllValid()
  {
    var kv := GetKeyValue(row, primary, context);
    if kv.Err? {
      return Err(kv.error);
    }
    var (key, values) := kv.value;
    if !Converter.AllHashable(key.1) {
      return Err(TypeError);
    }
    if !Converter.AllHashable(values) {
      ids.Touch(key);
      return Err(TypeError);
    }
    var id, existed := ids.GetId(key, values);
    r := Ok((id, existed));
  }

  /**
   * Recording `id` for `k` in bucket `b`: the bucket is created, a taken id raises ValueError,
   * and only then is `k` hashed.
   */
  function RecordIn<B, K>(buckets: map<B, IdMaps.IdMap<K>>, b: B, bHashable: bool, k: K, kHashable: bool, id: int)
    : (r: (Outcome, map<B, IdMaps.IdMap<K>>))
    ensures bHashable && id in IdMaps.BucketOf(buckets, b).idToValue ==> r.0 == Fail(ValueError(IdExists(id)))
    ensures r.0.Pass? ==> bHashable && kHashable && r.1 == buckets[b := IdMaps.SetId(IdMaps.BucketOf(buckets, b), k, id).value]
  {
    if !bHashable then (Fail(TypeError), buckets)
    else
      var m := IdMaps.BucketOf(buckets, b);
      if id in m.idToValue then (Fail(ValueError(IdExists(id))), buckets[b := m])
      else if !kHashable then (Fail(TypeError), buckets[b := m])
      else (Pass, buckets[b := IdMaps.SetId(m, k, id).value])
  }

  /** `set_id` as written, with the same swapped unpacking as `get_id`. */
  function RecordIdAsWritten(buckets: map<seq<Value>, IdMaps.IdMap<Converter.ContextKey>>, nested: ODict, primary: seq<string>, context: seq<string>, id: int)
    : (Outcome, map<seq<Value>, IdMaps.IdMap<Converter.ContextKey>>)
  {
    match KeyValue(nested, primary, context)
    case Err(e) => (Fail(e), buckets)
    case Ok((key, values)) => RecordIn(buckets, values, Converter.AllHashable(values), key, Converter.AllHashable(key.1), id)
  }

  /** `set_id` as intended. */
  function RecordId(buckets: Converter.Buckets, nested: ODict, primary: seq<string>, context: seq<string>, id: int)
    : (Outcome, Converter.Buckets)
  {
    match KeyValue(nested, primary, context)
    case Err(e) => (Fail(e), buckets)
    case Ok((key, values)) => RecordIn(buckets, key, Converter.AllHashable(key.1), values, Converter.AllHashable(values), id)
  }

  method SetIdAsWritten(ids: IdMaps.IdContextMap<seq<Value>, Converter.ContextKey>, row: Rows.Row, primary: seq<string>, context: seq<string>, id: int)
    returns (o: Outcome)
    modifies ids
    ensures (o, ids.buckets) == RecordIdAsWritten(old(ids.buckets), row.nested, primary, context, id)
  {
    var kv := GetKeyValue(row, primary, context);
    if kv.Err? {
      return Fail(kv.error);
    }
    var (key, values) := kv.value;
    if !Converter.AllHashable(values) {
      return Fail(TypeError);
    }
    if !Converter.AllHashable(key.1) {
      ids.Touch(values);
      if id in ids.Bucket(values).idToValue {
        return Fail(ValueError(IdExists(id)));
      }
      return Fail(TypeError);
    }
    o := ids.SetIdIn(values, key, id);
  }

  method SetId(ids: IdMaps.IdContextMap<Converter.ContextKey, seq<Value>>, row: Rows.Row, primary: seq<string>, context: seq<string>, id: int)
    returns (o: Outcome)
    modifies ids
    ensures (o, ids.buckets) == RecordId(old(ids.buckets), row.nested, primary, context, id)
    ensures old(ids.AllValid()) ==> ids.AllValid()
  {
    var kv := GetKeyValue(row, primary, context);
    if kv.Err? {
      return Fail(kv.error);
    }
    var (key, values) := kv.value;
    if !Converter.AllHashable(key.1) {
      return Fail(TypeError);
    }
    if !Converter.AllHashable(values) {
      ids.Touch(key);
      if id in ids.Bucket(key).idToValue {
        return Fail(ValueError(IdExists(id)));
      }
      return Fail(TypeError);
    }
    o := ids.SetIdIn(key, values, id);
  }

  /** `assign_id(id_context_map, row, config)`: the id of the row's key, written at `staging.<target>`. */
  function AssignIdSpec(buckets: Converter.Buckets, s: Rows.State, config: AssignIdConfig): (Rows.State, Outcome, Converter.Buckets) {
    var (r, buckets') := IdOf(buckets, s.nested, config.primary, config.context);
    match r
    case Err(e) => (s, Fail(e), buckets')
    case Ok((id, _)) =>
      var (s', o) := Actions.WriteRow(s, Actions.StagingKey(config.target), Int(id));
      (s', o, buckets')
  }

  method AssignId(ids: IdMaps.IdContextMap<Converter.ContextKey, seq<Value>>, row: Rows.Row, config: AssignIdConfig) returns (o: Outcome)
    modifies ids, row
    ensures (row.Snapshot(), o, ids.buckets) == AssignIdSpec(old(ids.buckets), old(row.Snapshot()), config)
    ensures old(ids.AllValid()) ==> ids.AllValid()
  {
    var r := GetId(ids, row, config.primary, config.context);
    if r.Err? {
      return Fail(r.error);
    }
    o := Actions.SetRowStagingValue(row, config.target, Int(r.value.0));
  }

  /** A key seen before gets its id again, flagged as existing; the table does not change. */
  lemma IdOfAgain(buckets: Converter.Buckets, nested: ODict, primary: seq<string>, context: seq<string>)
    requires IdOf(buckets, nested, primary, context).0.Ok?
    ensures var (r1, b1) := IdOf(buckets, nested, primary, context);
            IdOf(b1, nested, primary, context) == (Ok((r1.value.0, true)), b1)
  {
    var (key, values) := KeyValue(nested, primary, context).value;
    var m := IdMaps.BucketOf(buckets, key);
    var (m', id, _) := IdMaps.Obtain(m, values);
    var b1 := buckets[key := m'];
    assert IdOf(buckets, nested, primary, context) == (Ok((id, IdMaps.Obtain(m, values).2)), b1);
    assert IdMaps.BucketOf(b1, key) == m';
    IdMaps.ObtainAgain(m, values);
    assert b1[key := m'] == b1;
  }

  /** An unseen key gets the bucket's largest id plus one, which both directions of the bucket record. */
  lemma IdOfNew(buckets: Converter.Buckets, nested: ODict, primary: seq<string>, context: seq<string>)
    requires IdOf(buckets, nested, primary, context).0.Ok? && !IdOf(buckets, nested, primary, context).0.value.1
    ensures var (key, values) := KeyValue(nested, primary, context).value;
            var (r, b1) := IdOf(buckets, nested, primary, context);
            var m := IdMaps.BucketOf(buckets, key);
            && r.value.0 == m.maxId + 1 == b1[key].maxId
            && b1[key].valueToId[values] == r.value.0
            && b1[key].idToValue[r.value.0] == values
  {
  }

  /** Rows of one context with different primary values get different ids, in a valid table. */
  lemma IdOfDistinct(buckets: Converter.Buckets, n1: ODict, n2: ODict, primary: seq<string>, context: seq<string>)
    requires IdMaps.BucketsValid(buckets)
    requires KeyValue(n1, primary, context).Ok? && KeyValue(n2, primary, context).Ok?
    requires KeyValue(n1, primary, context).value.0 == KeyValue(n2, primary, context).value.0
    requires KeyValue(n1, primary, context).value.1 != KeyValue(n2, primary, context).value.1
    requires IdOf(buckets, n1, primary, context).0.Ok?
    requires IdOf(IdOf(buckets, n1, primary, context).1, n2, primary, context).0.Ok?
    ensures IdOf(IdOf(buckets, n1, primary, context).1, n2, primary, context).0.value.0
            != IdOf(buckets, n1, primary, context).0.value.0
  {
    var (key, values) := KeyValue(n1, primary, context).value;
    IdMaps.EmptyValid<seq<Value>>();
    IdMaps.ObtainDistinct(IdMaps.BucketOf(buckets, key), values, KeyValue(n2, primary, context).value.1);
  }

  /** Recording an id keeps every bucket valid. */
  lemma RecordIdValid(buckets: Converter.Buckets, nested: ODict, primary: seq<string>, context: seq<string>, id: int)
    requires IdMaps.BucketsValid(buckets)
    ensures IdMaps.BucketsValid(RecordId(buckets, nested, primary, context, id).1)
  {
    var kv := KeyValue(nested, primary, context);
    if kv.Ok? {
      var key, values := kv.value.0, kv.value.1;
      var m := IdMaps.BucketOf(buckets, key);
      IdMaps.BucketOfValid(buckets, key);
      IdMaps.UpdateValid(buckets, key, m);
      if id !in m.idToValue {
        IdMaps.SetIdValid(m, values, id);
        IdMaps.UpdateValid(buckets, key, IdMaps.SetId(m, values, id).value);
      }
    }
  }

  /** A row with the text `c` in column `c` and the value `p` in column `p`. */
  function RowOf(c: string, p: Value): ODict {
    [("c", Str(c)), ("p", p)]
  }

  /** The plain reads of a two-column row. */
  lemma RowOfReads(c: string, p: Value)
    ensures Lookup.DotFreeKeys(RowOf(c, p)) && !HasKey(RowOf(c, p), Lookup.Staging)
    ensures Get(RowOf(c, p), "c") == Some(Str(c)) && Get(RowOf(c, p), "p") == Some(p)
  {
    var n := RowOf(c, p);
    assert Keys(n) == ["c", "p"];
    FindIs(n, "c", 0);
    FindIs(n, "p", 1);
  }

  /** The key of one context column and one primary column that are both found. */
  lemma KeyValueSingle(n: ODict, pc: string, cc: string, pv: Value, cv: Value)
    requires Lookup.Search(n, cc) == Some(cv) && Lookup.Search(n, pc) == Some(pv)
    ensures KeyValue(n, [pc], [cc]) == Ok((([cc], [Converter.HashKey(cv)], [pc]), [Converter.HashKey(pv)]))
  {
    SearchOne(n, cc, cv);
    SearchOne(n, pc, pv);
    assert Converter.HashKeys([cv]) == [Converter.HashKey(cv)];
    assert Converter.HashKeys([pv]) == [Converter.HashKey(pv)];
  }

  lemma SearchOne(n: ODict, column: string, v: Value)
    requires Lookup.Search(n, column) == Some(v)
    ensures SearchAll(n, [column]) == Ok([v])
  {
    var cs: seq<string> := [column];
    assert cs[1..] == [];
    assert SearchAll(n, []) == Ok([]);
    assert [v] + [] == [v];
  }

  lemma KeyOfRow(c: string, p: Value)
    ensures KeyValue(RowOf(c, p), ["p"], ["c"]) == Ok(((["c"], [Str(c)], ["p"]), [Converter.HashKey(p)]))
  {
    RowOfReads(c, p);
    Lookup.SearchPlain(RowOf(c, p), "c");
    Lookup.SearchPlain(RowOf(c, p), "p");
    KeyValueSingle(RowOf(c, p), "p", "c", p, Str(c));
  }

  /**
   * `True == 1` in Python, so a row whose primary value is `True`, after one whose primary value
   * is `1` in the same context, gets the same id and is flagged as existing.
   */
  lemma TrueIsOne(c: string)
    ensures var (r1, b1) := IdOf(map[], RowOf(c, Int(1)), ["p"], ["c"]);
            r1 == Ok((1, false)) && IdOf(b1, RowOf(c, Bool(true)), ["p"], ["c"]).0 == Ok((1, true))
  {
    KeyOfRow(c, Int(1));
    KeyOfRow(c, Bool(true));
    var k: Converter.ContextKey := (["c"], [Str(c)], ["p"]);
    var v: seq<Value> := [Int(1)];
    assert Converter.AllHashable(v) && Converter.AllHashable(k.1);
    var first := IdOf(map[], RowOf(c, Int(1)), ["p"], ["c"]);
    assert first == ObtainIn(map[], k, true, v, true);
    var m := ObtainFresh(map[], k, v);
    assert IdOf(first.1, RowOf(c, Bool(true)), ["p"], ["c"]) == IdOf(first.1, RowOf(c, Int(1)), ["p"], ["c"]);
    IdOfAgain(map[], RowOf(c, Int(1)), ["p"], ["c"]);
  }

  /**
   * As written, every row whose primary values have not been seen gets id 1, whatever its
   * context: two rows of one context with different primary values get the same id.
   */
  lemma AsWrittenFirstIdIsOne(buckets: map<seq<Value>, IdMaps.IdMap<Converter.ContextKey>>, n1: ODict, n2: ODict, primary: seq<string>, context: seq<string>)
    requires KeyValue(n1, primary, context).Ok? && KeyValue(n2, primary, context).Ok?
    requires var (k1, v1) := KeyValue(n1, primary, context).value;
             var (k2, v2) := KeyValue(n2, primary, context).value;
             v1 != v2 && v1 !in buckets && v2 !in buckets
             && Converter.AllHashable(v1) && Converter.AllHashable(v2)
             && Converter.AllHashable(k1.1) && Converter.AllHashable(k2.1)
    ensures var (r1, b1) := IdOfAsWritten(buckets, n1, primary, context);
            r1 == Ok((1, false)) && IdOfAsWritten(b1, n2, primary, context).0 == Ok((1, false))
  {
    var (k1, v1) := KeyValue(n1, primary, context).value;
    AsWrittenNewPrimary(buckets, n1, primary, context);
    AsWrittenNewPrimary(IdOfAsWritten(buckets, n1, primary, context).1, n2, primary, context);
  }

  /** As written, a row whose primary values open a new bucket gets id 1 in it. */
  lemma AsWrittenNewPrimary(buckets: map<seq<Value>, IdMaps.IdMap<Converter.ContextKey>>, n: ODict, primary: seq<string>, context: seq<string>)
    requires KeyValue(n, primary, context).Ok?
    requires var (k, v) := KeyValue(n, primary, context).value;
             v !in buckets && Converter.AllHashable(v) && Converter.AllHashable(k.1)
    ensures var (k, v) := KeyValue(n, primary, context).value;
            IdOfAsWritten(buckets, n, primary, context) == (Ok((1, false)), buckets[v := IdMaps.Obtain(IdMaps.Empty(), k).0])
  {
    var k := KeyValue(n, primary, context).value.0;
    var v := KeyValue(n, primary, context).value.1;
    assert IdOfAsWritten(buckets, n, primary, context) == ObtainIn(buckets, v, true, k, true);
    var m := ObtainFresh(buckets, v, k);
  }

  /**
   * As written, the bucket is the primary value: a row seen again keeps its id, and a new
   * context in an existing primary bucket gets that bucket's max_id + 1.
   */
  lemma AsWrittenContextsInBucket(buckets: map<seq<Value>, IdMaps.IdMap<Converter.ContextKey>>, n1: ODict, n2: ODict,
                                  primary: seq<string>, context: seq<string>)
    requires KeyValue(n1, primary, context).Ok? && KeyValue(n2, primary, context).Ok?
    requires var (k1, v1) := KeyValue(n1, primary, context).value;
             var (k2, v2) := KeyValue(n2, primary, context).value;
             v1 == v2 && k1 != k2 && v1 !in buckets
             && Converter.AllHashable(v1) && Converter.AllHashable(k1.1) && Converter.AllHashable(k2.1)
    ensures var (r1, b1) := IdOfAsWritten(buckets, n1, primary, context);
            var (r2, b2) := IdOfAsWritten(b1, n1, primary, context);
            r1 == Ok((1, false)) && r2 == Ok((1, true)) && IdOfAsWritten(b2, n2, primary, context).0 == Ok((2, false))
  {
    var k1 := KeyValue(n1, primary, context).value.0;
    var k2 := KeyValue(n2, primary, context).value.0;
    var v := KeyValue(n1, primary, context).value.1;
    var first := IdOfAsWritten(buckets, n1, primary, context);
    assert first == ObtainIn(buckets, v, true, k1, true);
    var m := ObtainFresh(buckets, v, k1);
    var second := IdOfAsWritten(first.1, n1, primary, context);
    assert second == ObtainIn(first.1, v, true, k1, true);
    ObtainPresent(first.1, v, k1, m);
    assert IdOfAsWritten(second.1, n2, primary, context) == ObtainIn(first.1, v, true, k2, true);
    ObtainSecond(first.1, v, k1, k2, m);
  }

  /** As written, rows x/k1, x/k1 and y/k1 get ids 1, 1 and 2. */
  lemma AsWrittenNewContext(x: string, y: string, k1: string)
    requires x != y
    ensures var (r1, b1) := IdOfAsWritten(map[], RowOf(x, Str(k1)), ["p"], ["c"]);
            var (r2, b2) := IdOfAsWritten(b1, RowOf(x, Str(k1)), ["p"], ["c"]);
            r1 == Ok((1, false)) && r2 == Ok((1, true))
            && IdOfAsWritten(b2, RowOf(y, Str(k1)), ["p"], ["c"]).0 == Ok((2, false))
  {
    KeyOfRow(x, Str(k1));
    KeyOfRow(y, Str(k1));
    var kx: Converter.ContextKey := (["c"], [Str(x)], ["p"]);
    var ky: Converter.ContextKey := (["c"], [Str(y)], ["p"]);
    assert kx != ky by {
      assert kx.1[0] != ky.1[0];
    }
    assert Converter.AllHashable([Str(k1)]) && Converter.AllHashable(kx.1) && Converter.AllHashable(ky.1);
    AsWrittenContextsInBucket(map[], RowOf(x, Str(k1)), RowOf(y, Str(k1)), ["p"], ["c"]);
  }

  /** As intended, the first two rows of a new context with different primary values get ids 1 and 2. */
  lemma FirstIdsInContext(buckets: Converter.Buckets, n1: ODict, n2: ODict, primary: seq<string>, context: seq<string>)
    requires KeyValue(n1, primary, context).Ok? && KeyValue(n2, primary, context).Ok?
    requires var (k1, v1) := KeyValue(n1, primary, context).value;
             var (k2, v2) := KeyValue(n2, primary, context).value;
             k1 == k2 && v1 != v2 && k1 !in buckets
             && Converter.AllHashable(v1) && Converter.AllHashable(v2) && Converter.AllHashable(k1.1)
    ensures var (r1, b1) := IdOf(buckets, n1, primary, context);
            r1 == Ok((1, false)) && IdOf(b1, n2, primary, context).0 == Ok((2, false))
  {
    var k := KeyValue(n1, primary, context).value.0;
    var v1 := KeyValue(n1, primary, context).value.1;
    var v2 := KeyValue(n2, primary, context).value.1;
    var first := IdOf(buckets, n1, primary, context);
    assert first == ObtainIn(buckets, k, true, v1, true);
    var m1 := ObtainFresh(buckets, k, v1);
    assert IdOf(first.1, n2, primary, context) == ObtainIn(first.1, k, true, v2, true);
    ObtainSecond(first.1, k, v1, v2, m1);
  }

  /** The first value obtained in a new bucket gets id 1, and the bucket then records only it. */
  lemma ObtainFresh<B, K>(buckets: map<B, IdMaps.IdMap<K>>, b: B, k: K) returns (m: IdMaps.IdMap<K>)
    requires b !in buckets
    ensures ObtainIn(buckets, b, true, k, true) == (Ok((1, false)), buckets[b := m])
    ensures m.maxId == 1 && m.valueToId == map[k := 1]
  {
    m := IdMaps.Obtain(IdMaps.Empty(), k).0;
  }

  /** A value already in its bucket gets its id again, flagged as existing, and nothing changes. */
  lemma ObtainPresent<B, K>(buckets: map<B, IdMaps.IdMap<K>>, b: B, k: K, m: IdMaps.IdMap<K>)
    requires b in buckets && buckets[b] == m && k in m.valueToId
    ensures ObtainIn(buckets, b, true, k, true) == (Ok((m.valueToId[k], true)), buckets)
  {
    assert IdMaps.BucketOf(buckets, b) == m;
    assert buckets[b := m] == buckets;
  }

  /** A second, different value obtained in that bucket gets id 2. */
  lemma ObtainSecond<B, K>(buckets: map<B, IdMaps.IdMap<K>>, b: B, k1: K, k2: K, m: IdMaps.IdMap<K>)
    requires b in buckets && buckets[b] == m && m.maxId == 1 && m.valueToId == map[k1 := 1] && k1 != k2
    ensures ObtainIn(buckets, b, true, k2, true).0 == Ok((2, false))
  {
    assert IdMaps.BucketOf(buckets, b) == m;
    assert k2 !in m.valueToId;
  }

  /**
   * For two rows with the same value in the context column `c` and different values in the
   * primary column `p` (x/k1 and x/k2, say), the swapped unpacking gives both id 1, where the
   * intended numbering gives 1 and 2.
   */
  lemma SwappedKeysCollide(c: string, p1: string, p2: string)
    requires p1 != p2
    ensures var (r1, b1) := IdOfAsWritten(map[], RowOf(c, Str(p1)), ["p"], ["c"]);
            var (r2, _) := IdOfAsWritten(b1, RowOf(c, Str(p2)), ["p"], ["c"]);
            r1 == Ok((1, false)) && r2 == Ok((1, false))
    ensures var (r1, b1) := IdOf(map[], RowOf(c, Str(p1)), ["p"], ["c"]);
            var (r2, _) := IdOf(b1, RowOf(c, Str(p2)), ["p"], ["c"]);
            r1 == Ok((1, false)) && r2 == Ok((2, false))
  {
    KeyOfRow(c, Str(p1));
    KeyOfRow(c, Str(p2));
    var v1: seq<Value> := [Str(p1)];
    var v2: seq<Value> := [Str(p2)];
    assert v1 != v2 by {
      assert v1[0] != v2[0];
    }
    assert Converter.AllHashable(v1) && Converter.AllHashable(v2) && Converter.AllHashable([Str(c)]);
    AsWrittenFirstIdIsOne(map[], RowOf(c, Str(p1)), RowOf(c, Str(p2)), ["p"], ["c"]);
    FirstIdsInContext(map[], RowOf(c, Str(p1)), RowOf(c, Str(p2)), ["p"], ["c"]);
  }


}

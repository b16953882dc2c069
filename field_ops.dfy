/**
 * The dictionary-level helpers of the table converter's actions:
 * expanding a value into dotted flat keys (`set_flat_field_value`),
 * deleting a flat key with everything below it (`delete_flat_row_value`) and
 * popping a value out of a nested row (`pop_nested_row_value`).
 */
module FieldOps {

  import opened Wrappers
  import opened Values
  import Strings
  import NestedField

  /** The recursion depth past which object expansion raises ValueError. */
  const MaxDepth := 10

  // ---------------------------------------------------------------------------
  // set_flat_field_value

  /**
   * `set_flat_field_value(flat, target, value, depth)`: the flat row afterwards and whether it raised.
   * A dictionary value is written key by key under `target.key`, one level deeper;
   * anything else is stored at `target`. The guard is checked on entry to every call,
   * so entries written before it trips stay written.
   */
  function FlatWrite(flat: ODict, target: string, value: Value, depth: int): (ODict, Outcome)
    decreases value, 1, 0
  {
    if depth > MaxDepth then (flat, Fail(ValueError(DepthTooHigh)))
    else match value
      case Obj(fields) => FlatWriteEach(flat, target, fields, 0, depth + 1)
      case _ => (Put(flat, target, value), Pass)
  }

  /** The loop of `FlatWrite` over the entries of a dictionary value, from entry `i` on. */
  function FlatWriteEach(flat: ODict, target: string, fields: seq<(string, Value)>, i: nat, depth: int): (ODict, Outcome)
    requires i <= |fields|
    decreases Obj(fields), 0, |fields| - i
  {
    if i == |fields| then (flat, Pass)
    else
      assert fields[i] in fields;
      var (f, o) := FlatWrite(flat, target + "." + fields[i].0, fields[i].1, depth);
      if o.Fail? then (f, o) else FlatWriteEach(f, target, fields, i + 1, depth)
  }

  /** `set_flat_field_value`, with its loop over the keys of a dictionary value. */
  method SetFlatFieldValue(flat: ODict, target: string, value: Value, depth: int) returns (r: ODict, o: Outcome)
    ensures (r, o) == FlatWrite(flat, target, value, depth)
    decreases value
  {
    if depth > MaxDepth {
      return flat, Fail(ValueError(DepthTooHigh));
    }
    match value {
      case Obj(fields) =>
        r, o := flat, Pass;
        var i := 0;
        while i < |fields|
          invariant 0 <= i <= |fields|
          invariant FlatWriteEach(r, target, fields, i, depth + 1) == FlatWrite(flat, target, value, depth)
        {
          assert fields[i] in fields;
          var o';
          r, o' := SetFlatFieldValue(r, target + "." + fields[i].0, fields[i].1, depth + 1);
          if o'.Fail? {
            return r, o';
          }
          i := i + 1;
        }
      case _ =>
        r, o := Put(flat, target, value), Pass;
    }
  }

  /** No call in the expansion of `value` from `depth` on passes the depth guard. */
  predicate DepthOK(value: Value, depth: int)
    decreases value
  {
    depth <= MaxDepth &&
    match value
    case Obj(fields) => forall i :: 0 <= i < |fields| ==> (assert fields[i] in fields; DepthOK(fields[i].1, depth + 1))
    case _ => true
  }

  /** The dotted flat entries that expanding `value` under `target` produces, in order. */
  function Leaves(target: string, value: Value): seq<(string, Value)>
    decreases value, 1, 0
  {
    match value
    case Obj(fields) => LeavesEach(target, fields, 0)
    case _ => [(target, value)]
  }

  function LeavesEach(target: string, fields: seq<(string, Value)>, i: nat): seq<(string, Value)>
    requires i <= |fields|
    decreases Obj(fields), 0, |fields| - i
  {
    if i == |fields| then []
    else
      assert fields[i] in fields;
      Leaves(target + "." + fields[i].0, fields[i].1) + LeavesEach(target, fields, i + 1)
  }

  /** Writing entries one after the other. */
  function PutAll(flat: ODict, entries: seq<(string, Value)>): ODict
    decreases |entries|
  {
    if entries == [] then flat else PutAll(Put(flat, entries[0].0, entries[0].1), entries[1..])
  }

  lemma {:induction false} PutAllAppend(flat: ODict, a: seq<(string, Value)>, b: seq<(string, Value)>)
    ensures PutAll(flat, a + b) == PutAll(PutAll(flat, a), b)
    decreases |a|
  {
    if a == [] {
      assert a + b == b;
    } else {
      assert (a + b)[1..] == a[1..] + b;
      PutAllAppend(Put(flat, a[0].0, a[0].1), a[1..], b);
    }
  }

  /** The guard never trips exactly when the expansion stays within the depth limit. */
  lemma {:induction false} FlatWritePasses(flat: ODict, target: string, value: Value, depth: int)
    ensures FlatWrite(flat, target, value, depth).1 == Pass <==> DepthOK(value, depth)
    decreases value, 1, 0
  {
    if depth <= MaxDepth && value.Obj? {
      FlatWriteEachPasses(flat, target, value.fields, 0, depth + 1);
    }
  }

  lemma {:induction false} FlatWriteEachPasses(flat: ODict, target: string, fields: seq<(string, Value)>, i: nat, depth: int)
    requires i <= |fields|
    ensures FlatWriteEach(flat, target, fields, i, depth).1 == Pass
            <==> forall j :: i <= j < |fields| ==> DepthOK(fields[j].1, depth)
    decreases Obj(fields), 0, |fields| - i
  {
    if i < |fields| {
      assert fields[i] in fields;
      var (f, o) := FlatWrite(flat, target + "." + fields[i].0, fields[i].1, depth);
      FlatWritePasses(flat, target + "." + fields[i].0, fields[i].1, depth);
      if o == Pass {
        FlatWriteEachPasses(f, target, fields, i + 1, depth);
      }
    }
  }

  /** A write that passes the guard stores exactly the leaves of the value, in order. */
  lemma {:induction false} FlatWriteLeaves(flat: ODict, target: string, value: Value, depth: int)
    requires FlatWrite(flat, target, value, depth).1 == Pass
    ensures FlatWrite(flat, target, value, depth).0 == PutAll(flat, Leaves(target, value))
    decreases value, 1, 0
  {
    match value
    case Obj(fields) =>
      FlatWriteEachLeaves(flat, target, fields, 0, depth + 1);
    case _ =>
      assert PutAll(flat, Leaves(target, value)) == PutAll(Put(flat, target, value), []);
  }

  lemma {:induction false} FlatWriteEachLeaves(flat: ODict, target: string, fields: seq<(string, Value)>, i: nat, depth: int)
    requires i <= |fields|
    requires FlatWriteEach(flat, target, fields, i, depth).1 == Pass
    ensures FlatWriteEach(flat, target, fields, i, depth).0 == PutAll(flat, LeavesEach(target, fields, i))
    decreases Obj(fields), 0, |fields| - i
  {
    if i < |fields| {
      assert fields[i] in fields;
      var t := target + "." + fields[i].0;
      var w := FlatWrite(flat, t, fields[i].1, depth);
      var f := w.0;
      assert w.1 == Pass;
      assert FlatWriteEach(flat, target, fields, i, depth) == FlatWriteEach(f, target, fields, i + 1, depth);
      var here, later := Leaves(t, fields[i].1), LeavesEach(target, fields, i + 1);
      assert LeavesEach(target, fields, i) == here + later;
      FlatWriteLeaves(flat, t, fields[i].1, depth);
      FlatWriteEachLeaves(f, target, fields, i + 1, depth);
      PutAllAppend(flat, here, later);
    }
  }

  /** No leaf is a dictionary: an empty dictionary value writes nothing at all. */
  lemma {:induction false} LeavesFlat(target: string, value: Value)
    ensures forall j :: 0 <= j < |Leaves(target, value)| ==> !Leaves(target, value)[j].1.Obj?
    decreases value, 1, 0
  {
    if value.Obj? {
      LeavesEachFlat(target, value.fields, 0);
    }
  }

  lemma {:induction false} LeavesEachFlat(target: string, fields: seq<(string, Value)>, i: nat)
    requires i <= |fields|
    ensures forall j :: 0 <= j < |LeavesEach(target, fields, i)| ==> !LeavesEach(target, fields, i)[j].1.Obj?
    decreases Obj(fields), 0, |fields| - i
  {
    if i < |fields| {
      assert fields[i] in fields;
      LeavesFlat(target + "." + fields[i].0, fields[i].1);
      LeavesEachFlat(target, fields, i + 1);
    }
  }

  /** Writing a non-dictionary keeps a flat row free of dictionaries. */
  lemma PutNoObjects(flat: ODict, k: string, v: Value)
    requires NoObjects(flat) && !v.Obj?
    ensures NoObjects(Put(flat, k, v))
  {
    var r := Put(flat, k, v);
    forall i | 0 <= i < |r| ensures !r[i].1.Obj? {
      assert r[i] in flat || r[i] == (k, v);
    }
  }

  /** Object expansion keeps a flat row free of dictionaries and of repeated keys, even when it raises. */
  lemma {:induction false} FlatWriteKeepsFlat(flat: ODict, target: string, value: Value, depth: int)
    requires NoObjects(flat) && Distinct(flat)
    ensures NoObjects(FlatWrite(flat, target, value, depth).0)
    ensures Distinct(FlatWrite(flat, target, value, depth).0)
    decreases value, 1, 0
  {
    if depth <= MaxDepth {
      match value
      case Obj(fields) =>
        FlatWriteEachKeepsFlat(flat, target, fields, 0, depth + 1);
      case _ =>
        PutNoObjects(flat, target, value);
        PutDistinct(flat, target, value);
    }
  }

  lemma {:induction false} FlatWriteEachKeepsFlat(flat: ODict, target: string, fields: seq<(string, Value)>, i: nat, depth: int)
    requires i <= |fields|
    requires NoObjects(flat) && Distinct(flat)
    ensures NoObjects(FlatWriteEach(flat, target, fields, i, depth).0)
    ensures Distinct(FlatWriteEach(flat, target, fields, i, depth).0)
    decreases Obj(fields), 0, |fields| - i
  {
    if i < |fields| {
      assert fields[i] in fields;
      var t := target + "." + fields[i].0;
      var (f, o) := FlatWrite(flat, t, fields[i].1, depth);
      FlatWriteKeepsFlat(flat, t, fields[i].1, depth);
      if o == Pass {
        FlatWriteEachKeepsFlat(f, target, fields, i + 1, depth);
      }
    }
  }

  // ---------------------------------------------------------------------------
  // delete_flat_row_value

  /** Flat key `key` is `target` itself or lies below it. */
  predicate Under(key: string, target: string) {
    key == target || Strings.StartsWith(key, target + ".")
  }

  /** The entries of `flat` that do not lie under `target`, in their order. */
  function Without(flat: ODict, target: string): (r: ODict)
    ensures forall i :: 0 <= i < |r| ==> r[i] in flat && !Under(r[i].0, target)
    ensures forall i :: 0 <= i < |flat| && !Under(flat[i].0, target) ==> flat[i] in r
    decreases |flat|
  {
    if flat == [] then []
    else
      var init, last := flat[..|flat| - 1], flat[|flat| - 1];
      assert forall x :: x in init ==> x in flat;
      assert forall i :: 0 <= i < |flat| - 1 ==> flat[i] == init[i];
      Without(init, target) + (if Under(last.0, target) then [] else [last])
  }

  lemma {:induction false} WithoutAbsent(m: ODict, target: string, k: string)
    requires forall j :: 0 <= j < |m| ==> m[j].0 != k
    ensures forall j :: 0 <= j < |Without(m, target)| ==> Without(m, target)[j].0 != k
    decreases |m|
  {
    if m != [] {
      var init := m[..|m| - 1];
      assert forall j :: 0 <= j < |init| ==> init[j] == m[j];
      WithoutAbsent(init, target, k);
    }
  }

  /** One turn of the deletion loop: the entry at `i` goes exactly when it lies under `target`. */
  lemma DeleteStep(flat: ODict, target: string, i: nat)
    requires Distinct(flat) && i < |flat|
    ensures var r := Without(flat[..i], target) + flat[i..];
            (if Under(flat[i].0, target) then Remove(r, flat[i].0) else r)
            == Without(flat[..i + 1], target) + flat[i + 1..]
  {
    var kept := Without(flat[..i], target);
    var x, rest := flat[i], flat[i + 1..];
    WithoutSnoc(flat, target, i);
    assert flat[i..] == [x] + rest;
    if Under(x.0, target) {
      OthersBefore(flat, i, flat[..i], rest);
      WithoutAbsent(flat[..i], target, x.0);
      RemoveOnly(kept, x, rest);
      assert Without(flat[..i + 1], target) == kept + [] == kept;
    } else {
      assert Without(flat[..i + 1], target) == kept + [x];
      assert kept + ([x] + rest) == (kept + [x]) + rest;
    }
  }

  /** Filtering one entry more of a prefix adds that entry unless it lies under `target`. */
  lemma WithoutSnoc(flat: ODict, target: string, i: nat)
    requires i < |flat|
    ensures Without(flat[..i + 1], target)
            == Without(flat[..i], target) + (if Under(flat[i].0, target) then [] else [flat[i]])
  {
    assert flat[..i + 1][..i] == flat[..i];
  }

  /** In a dictionary without repeated keys, no entry before or after entry `i` has its key. */
  lemma OthersBefore(flat: ODict, i: nat, before: ODict, rest: ODict)
    requires Distinct(flat) && i < |flat| && before == flat[..i] && rest == flat[i + 1..]
    ensures forall j :: 0 <= j < |before| ==> before[j].0 != flat[i].0
    ensures forall j :: 0 <= j < |rest| ==> rest[j].0 != flat[i].0
  {
    forall j | 0 <= j < |rest| ensures rest[j].0 != flat[i].0 {
      assert rest[j] == flat[i + 1 + j];
    }
  }

  /** Removing the only entry with a key. */
  lemma RemoveOnly(kept: ODict, x: (string, Value), rest: ODict)
    requires forall j :: 0 <= j < |kept| ==> kept[j].0 != x.0
    requires forall j :: 0 <= j < |rest| ==> rest[j].0 != x.0
    ensures Remove(kept + ([x] + rest), x.0) == kept + rest
  {
    var k := x.0;
    var one: ODict := [x];
    assert Remove(one, k) == [] by {
      assert one[1..] == [];
    }
    assert Remove(one + rest, k) == rest by {
      RemoveAppend(one, rest, k);
      RemoveAbsent(rest, k);
    }
    RemoveAppend(kept, one + rest, k);
    RemoveAbsent(kept, k);
  }

  /** `delete_flat_row_value`: deletes every key under `target`, going over a snapshot of the keys. */
  method DeleteFlatRowValue(flat: ODict, target: string) returns (r: ODict)
    requires Distinct(flat)
    ensures r == Without(flat, target)
  {
    var keys := Keys(flat);
    r := flat;
    assert r == Without(flat[..0], target) + flat[0..];
    for i := 0 to |keys|
      invariant r == Without(flat[..i], target) + flat[i..]
    {
      r := DeleteKey(flat, target, keys[i], i, r);
    }
    assert flat[..|keys|] == flat && flat[|keys|..] == [];
  }

  /** One turn of the loop of `delete_flat_row_value`: the key at position `i` goes if it lies under `target`. */
  method DeleteKey(flat: ODict, target: string, key: string, i: nat, r: ODict) returns (r': ODict)
    requires Distinct(flat) && i < |flat| && key == flat[i].0
    requires r == Without(flat[..i], target) + flat[i..]
    ensures r' == Without(flat[..i + 1], target) + flat[i + 1..]
  {
    DeleteStep(flat, target, i);
    r' := if Under(key, target) then Remove(r, key) else r;
  }

  // ---------------------------------------------------------------------------
  // pop_nested_row_value

  /** Where following a list of keys down a nested row ends: at a value, at a missing key, or at an exception. */
  datatype Walk = Reached(v: Value) | Missing | Raised(error: Error)

  /**
   * One turn of the loop of `pop_nested_row_value`: `k not in level` gives up with the default
   * (on a text or list too), `in` on a scalar raises TypeError, and so does indexing a text or list by `k`.
   */
  function Enter(level: Value, k: string): (w: Walk)
    ensures w.Reached? <==> level.Obj? && HasKey(level.fields, k)
    ensures w.Reached? ==> Some(w.v) == Get(level.fields, k)
    ensures w.Missing? <==> ContainsKey(level, k) == Ok(false)
    ensures w.Raised? ==> w.error == TypeError
  {
    match ContainsKey(level, k)
    case Err(e) => Raised(e)
    case Ok(false) => Missing
    case Ok(true) =>
      if level.Obj? then Reached(Get(level.fields, k).value) else Raised(TypeError)
  }

  /** Following `segs` down from `v`, one `Enter` per key. */
  function WalkTo(v: Value, segs: seq<string>): Walk
    decreases |segs|
  {
    if segs == [] then Reached(v)
    else
      match Enter(v, segs[0])
      case Reached(child) => WalkTo(child, segs[1..])
      case w => w
  }

  /** One more level of a walk that has got as far as `cur`; a walk that stops there stops for good. */
  lemma WalkStep(v: Value, keys: seq<string>, i: nat, n: nat, cur: Value)
    requires i < n <= |keys| && WalkTo(v, keys[..i]) == Reached(cur)
    ensures var w := Enter(cur, keys[i]);
            WalkTo(v, keys[..i + 1]) == w && (!w.Reached? ==> WalkTo(v, keys[..n]) == w)
  {
    var one := [keys[i]];
    assert one[1..] == [];
    WalkToAppend(v, keys[..i], one);
    assert keys[..i] + one == keys[..i + 1];
    WalkToAppend(v, keys[..i + 1], keys[i + 1..n]);
    assert keys[..i + 1] + keys[i + 1..n] == keys[..n];
  }

  /** A walk along `s + t` is the walk along `s`, continued along `t` if it got there. */
  lemma {:induction false} WalkToAppend(v: Value, s: seq<string>, t: seq<string>)
    ensures WalkTo(v, s + t) == match WalkTo(v, s) case Reached(x) => WalkTo(x, t) case w => w
    decreases |s|
  {
    if s == [] {
      assert s + t == t;
    } else {
      assert (s + t)[0] == s[0] && (s + t)[1..] == s[1..] + t;
      match Enter(v, s[0])
      case Reached(child) => WalkToAppend(child, s[1..], t);
      case _ =>
    }
  }

  /** A walk from a value that is not a dictionary never reaches a dictionary. */
  lemma WalkFromNonObject(v: Value, segs: seq<string>)
    requires !v.Obj?
    ensures !(WalkTo(v, segs).Reached? && WalkTo(v, segs).v.Obj?)
  {
  }

  /** `d` with the dictionary at `segs` replaced by `inner`, every level above it rewritten in place. */
  function ReplaceAt(d: ODict, segs: seq<string>, inner: ODict): ODict
    decreases |segs|
  {
    if segs == [] then inner
    else
      var sub := match Get<Value>(d, segs[0]) case Some(Obj(s)) => s case _ => [];
      Put(d, segs[0], Obj(ReplaceAt(sub, segs[1..], inner)))
  }

  /** After the replacement the walk along `segs` reaches the new dictionary. */
  lemma {:induction false} WalkReplaceAt(d: ODict, segs: seq<string>, inner: ODict)
    requires WalkTo(Obj(d), segs).Reached? && WalkTo(Obj(d), segs).v.Obj?
    ensures WalkTo(Obj(ReplaceAt(d, segs, inner)), segs) == Reached(Obj(inner))
    decreases |segs|
  {
    if segs != [] {
      var head, rest := segs[0], segs[1..];
      var child := Enter(Obj(d), head).v;
      assert WalkTo(Obj(d), segs) == WalkTo(child, rest);
      if !child.Obj? {
        WalkFromNonObject(child, rest);
      }
      var sub := child.fields;
      assert Get(d, head) == Some(Obj(sub));
      WalkReplaceAt(sub, rest, inner);
      var d' := ReplaceAt(d, segs, inner);
      assert d' == Put(d, head, Obj(ReplaceAt(sub, rest, inner)));
      assert Enter(Obj(d'), head) == Reached(Obj(ReplaceAt(sub, rest, inner)));
    }
  }

  /**
   * `pop_nested_row_value` on the key list `segs`: the nested row afterwards and the popped value.
   * A walk that gives up returns `default` and changes nothing; at the last level a dictionary pops
   * its key, a list's `pop` refuses the default with TypeError, and other values have no `pop`.
   */
  function PopAt(d: ODict, segs: seq<string>, default: Value): (ODict, Result<Value>)
    requires |segs| >= 1
  {
    var path, last := segs[..|segs| - 1], segs[|segs| - 1];
    match WalkTo(Obj(d), path)
    case Missing => (d, Ok(default))
    case Raised(e) => (d, Err(e))
    case Reached(Obj(inner)) =>
      (match Get(inner, last)
       case Some(v) => (ReplaceAt(d, path, Remove(inner, last)), Ok(v))
       case None => (d, Ok(default)))
    case Reached(List(_)) => (d, Err(TypeError))
    case Reached(_) => (d, Err(AttributeError))
  }

  /** `pop_nested_row_value(nested, key, default)`, walking down one level per loop turn. */
  method PopNestedRowValue(nested: ODict, key: string, default: Value) returns (r: ODict, v: Result<Value>)
    ensures (r, v) == PopAt(nested, Strings.Split(key, "."), default)
  {
    var keys := Strings.Split(key, ".");
    var n := |keys| - 1;
    var cur := Obj(nested);
    var i := 0;
    while i < n
      invariant 0 <= i <= n
      invariant WalkTo(Obj(nested), keys[..i]) == Reached(cur)
    {
      WalkStep(Obj(nested), keys, i, n, cur);
      var has := ContainsKey(cur, keys[i]);
      if has.Err? {
        PopAtStopped(nested, keys, default);
        return nested, Err(has.error);
      }
      if !has.value {
        PopAtStopped(nested, keys, default);
        return nested, Ok(default);
      }
      if !cur.Obj? {
        PopAtStopped(nested, keys, default);
        return nested, Err(TypeError);
      }
      cur := Get(cur.fields, keys[i]).value;
      i := i + 1;
    }
    assert keys[..i] == keys[..n];
    PopAtReached(nested, keys, default, cur);
    var last := keys[n];
    match cur {
      case Obj(inner) =>
        match Get(inner, last) {
          case Some(x) =>
            r, v := ReplaceAt(nested, keys[..n], Remove(inner, last)), Ok(x);
          case None =>
            r, v := nested, Ok(default);
        }
      case List(_) =>
        r, v := nested, Err(TypeError);
      case _ =>
        r, v := nested, Err(AttributeError);
    }
  }

  /** A walk that stops early pops nothing: a missing key gives `default`, anything else raises TypeError. */
  lemma PopAtStopped(d: ODict, segs: seq<string>, default: Value)
    requires |segs| >= 1 && !WalkTo(Obj(d), segs[..|segs| - 1]).Reached?
    ensures PopAt(d, segs, default).0 == d
    ensures PopAt(d, segs, default).1
            == if WalkTo(Obj(d), segs[..|segs| - 1]).Missing? then Ok(default) else Err(TypeError)
  {
    var w := WalkTo(Obj(d), segs[..|segs| - 1]);
    if w.Raised? {
      WalkRaisesTypeError(Obj(d), segs[..|segs| - 1]);
    }
  }

  /** The only exception a walk raises is TypeError. */
  lemma {:induction false} WalkRaisesTypeError(v: Value, segs: seq<string>)
    ensures WalkTo(v, segs).Raised? ==> WalkTo(v, segs).error == TypeError
    decreases |segs|
  {
    if segs != [] {
      match Enter(v, segs[0])
      case Reached(child) => WalkRaisesTypeError(child, segs[1..]);
      case _ =>
    }
  }

  /**
   * A walk that reaches the last level pops the last key there when it is a dictionary; a list
   * raises TypeError and a text, number, boolean or None raises AttributeError.
   */
  lemma PopAtReached(d: ODict, segs: seq<string>, default: Value, level: Value)
    requires |segs| >= 1 && WalkTo(Obj(d), segs[..|segs| - 1]) == Reached(level)
    ensures level.Obj? ==>
              var last := segs[|segs| - 1];
              PopAt(d, segs, default)
              == match Get(level.fields, last)
                 case Some(v) => (ReplaceAt(d, segs[..|segs| - 1], Remove(level.fields, last)), Ok(v))
                 case None => (d, Ok(default))
    ensures level.List? ==> PopAt(d, segs, default) == (d, Err(TypeError))
    ensures !level.Obj? && !level.List? ==> PopAt(d, segs, default) == (d, Err(AttributeError))
  {
  }

  /** `{'a': 'xyz'}` popped at `a.q.r`: `'q' not in 'xyz'`, so the default comes back and nothing changes. */
  lemma PopThroughTextMissing(default: Value)
    ensures PopAt([("a", Str("xyz"))], ["a", "q", "r"], default) == ([("a", Str("xyz"))], Ok(default))
  {
    var d := [("a", Str("xyz"))];
    var segs := ["a", "q", "r"];
    assert segs[..2] == ["a", "q"];
    assert Get(d, "a") == Some(Str("xyz")) by { FindIs(d, "a", 0); }
    NotSubstring("xyz", "q");
    assert Enter(Str("xyz"), "q") == Missing;
    var w := WalkTo(Obj(d), ["a", "q"]);
    assert ["a", "q"][1..] == ["q"] && ["q"][1..] == [];
    assert WalkTo(Str("xyz"), ["q"]) == Missing;
    assert w == Missing;
  }

  /** `{'a': 'xyz'}` popped at `a.b`: the walk reaches the text, which has no `pop`. */
  lemma PopTextLevel(default: Value)
    ensures PopAt([("a", Str("xyz"))], ["a", "b"], default) == ([("a", Str("xyz"))], Err(AttributeError))
  {
    var d := [("a", Str("xyz"))];
    var segs := ["a", "b"];
    assert segs[..1] == ["a"];
    assert Get(d, "a") == Some(Str("xyz")) by { FindIs(d, "a", 0); }
    assert ["a"][1..] == [];
    assert WalkTo(Obj(d), ["a"]) == Reached(Str("xyz"));
  }

  /** A one-character text that does not occur in `s` is not a substring of it. */
  lemma NotSubstring(s: string, p: string)
    requires |p| == 1 && p[0] !in s
    ensures !Strings.Contains(s, p)
  {
    forall i | 0 <= i <= |s| - |p| ensures !Strings.OccursAt(s, p, i) {
      assert s[i..i + 1][0] == s[i];
    }
  }

  /** The value at a dotted path is what the walk along its keys finds at the last key of a dictionary. */
  lemma {:induction false} DescendWalk(d: ODict, key: string)
    ensures var segs := Strings.Split(key, ".");
            NestedField.Descend(d, key)
            == match WalkTo(Obj(d), segs[..|segs| - 1]) case Reached(Obj(x)) => Get(x, segs[|segs| - 1]) case _ => None
    decreases |key|, 1
  {
    var (head, rest) := Strings.SplitOnce(key, '.');
    assert "." == ['.'];
    Strings.SplitCharCons(key, '.');
    if rest.Some? {
      DescendWalkCons(d, key, head, rest.value);
    } else {
      assert Strings.Split(key, ".") == [head];
      assert [head][..0] == [];
    }
  }

  /** The walk for a dotted key enters its first segment, then walks the rest. */
  lemma {:induction false} DescendWalkCons(d: ODict, key: string, head: string, rest: string)
    requires Strings.SplitOnce(key, '.') == (head, Some(rest))
    requires Strings.Split(key, ".") == [head] + Strings.Split(rest, ".")
    ensures var segs := Strings.Split(key, ".");
            NestedField.Descend(d, key)
            == match WalkTo(Obj(d), segs[..|segs| - 1]) case Reached(Obj(x)) => Get(x, segs[|segs| - 1]) case _ => None
    decreases |key|, 0
  {
    var tail := Strings.Split(rest, ".");
    WalkCons(d, head, tail);
    match Get<Value>(d, head) {
      case Some(Obj(sub)) =>
        DescendWalk(sub, rest);
      case Some(c) =>
        WalkFromNonObject(c, tail[..|tail| - 1]);
      case None =>
    }
  }

  /** The walk along all but the last of `[head] + tail` enters `head` first. */
  lemma WalkCons(d: ODict, head: string, tail: seq<string>)
    requires |tail| >= 1
    ensures var segs := [head] + tail;
            && segs[|segs| - 1] == tail[|tail| - 1]
            && WalkTo(Obj(d), segs[..|segs| - 1])
               == match Get<Value>(d, head)
                  case None => Missing
                  case Some(c) => WalkTo(c, tail[..|tail| - 1])
  {
    var segs := [head] + tail;
    var path := segs[..|segs| - 1];
    assert path == [head] + tail[..|tail| - 1];
    assert path[0] == head && path[1..] == tail[..|tail| - 1];
  }

  /** Popping returns the value stored at the dotted path, or `default` when there is none. */
  lemma PopFindsValue(d: ODict, key: string, default: Value)
    requires PopAt(d, Strings.Split(key, "."), default).1.Ok?
    ensures PopAt(d, Strings.Split(key, "."), default).1.value == NestedField.Descend(d, key).GetOr(default)
  {
    DescendWalk(d, key);
  }

  /** A pop that finds nothing leaves the row unchanged. */
  lemma PopMissingUnchanged(d: ODict, key: string, default: Value)
    requires NestedField.Descend(d, key).None?
    ensures PopAt(d, Strings.Split(key, "."), default).0 == d
  {
    DescendWalk(d, key);
  }

  /** After a pop the dotted path no longer holds a value. */
  lemma PopRemoves(d: ODict, key: string, default: Value)
    ensures NestedField.Descend(d, key).Some?
            ==> NestedField.Descend(PopAt(d, Strings.Split(key, "."), default).0, key).None?
  {
    var segs := Strings.Split(key, ".");
    var path, last := segs[..|segs| - 1], segs[|segs| - 1];
    var r := PopAt(d, segs, default).0;
    DescendWalk(d, key);
    DescendWalk(r, key);
    match WalkTo(Obj(d), path)
    case Reached(Obj(inner)) =>
      if Get(inner, last).Some? {
        WalkReplaceAt(d, path, Remove(inner, last));
        GetRemove(inner, last, last);
      }
    case _ =>
  }
}

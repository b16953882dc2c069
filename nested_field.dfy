/**
 * Writing a value into a nested dictionary at a dot-separated path
 * (`set_nested_field_value`). A missing intermediate level becomes an empty
 * dictionary; an existing intermediate level that is not a dictionary makes
 * Python raise TypeError before anything changes.
 */
module NestedField {

  import opened Wrappers
  import opened Values
  import Strings

  /** The value at the dot-separated `path` below `d`, when every step is a dictionary that has it. */
  function Descend(d: ODict, path: string): Option<Value>
    decreases |path|
  {
    match Strings.SplitOnce(path, '.')
    case (head, None) => Get(d, head)
    case (head, Some(rest)) =>
      match Get<Value>(d, head)
      case Some(Obj(sub)) => Descend(sub, rest)
      case _ => None
  }

  /** Every intermediate level on `path` that already exists below `d` is a dictionary. */
  predicate Writable(d: ODict, path: string)
    decreases |path|
  {
    match Strings.SplitOnce(path, '.')
    case (_, None) => true
    case (head, Some(rest)) =>
      match Get<Value>(d, head)
      case None => true
      case Some(Obj(sub)) => Writable(sub, rest)
      case Some(_) => false
  }

  /** `set_nested_field_value(data, field, value)` on a copy of `data`. */
  function SetNestedFieldValue(data: ODict, field: string, value: Value): (r: Result<ODict>)
    ensures r.Ok? <==> Writable(data, field)
    ensures r.Err? ==> r.error == TypeError
    ensures r.Ok? ==> Descend(r.value, field) == Some(value)
    ensures r.Ok? ==> var head := Strings.SplitOnce(field, '.').0;
                      Keys(r.value) == if HasKey(data, head) then Keys(data) else Keys(data) + [head]
    decreases |field|
  {
    match Strings.SplitOnce(field, '.')
    case (head, None) => Ok(Put(data, head, value))
    case (head, Some(rest)) =>
      var sub :- match Get<Value>(data, head)
                 case None => Ok([])
                 case Some(Obj(s)) => Ok(s)
                 case Some(_) => Err(TypeError);
      var sub' :- SetNestedFieldValue(sub, rest, value);
      Ok(Put(data, head, Obj(sub')))
  }

  /** The dictionary that a write into an empty dictionary produces: one entry per level of `path`. */
  function Chain(path: string, value: Value): ODict
    decreases |path|
  {
    match Strings.SplitOnce(path, '.')
    case (head, None) => [(head, value)]
    case (head, Some(rest)) => [(head, Obj(Chain(rest, value)))]
  }

  /** Writing into an empty dictionary never fails and creates exactly the levels of the path. */
  lemma {:induction false} SetNestedIntoEmpty(path: string, value: Value)
    ensures SetNestedFieldValue([], path, value) == Ok(Chain(path, value))
    decreases |path|
  {
    match Strings.SplitOnce(path, '.')
    case (head, None) =>
      assert Find<Value>([], head) == None;
      assert [] + [(head, value)] == [(head, value)];
    case (head, Some(rest)) =>
      assert Find<Value>([], head) == None;
      SetNestedIntoEmpty(rest, value);
      var c := Chain(rest, value);
      assert [] + [(head, Obj(c))] == [(head, Obj(c))];
  }

  /** Two paths that part at some level: neither is a prefix of the other. */
  predicate Diverges(p: string, q: string)
    decreases |p|
  {
    var (ph, pr) := Strings.SplitOnce(p, '.');
    var (qh, qr) := Strings.SplitOnce(q, '.');
    ph != qh || (pr.Some? && qr.Some? && Diverges(pr.value, qr.value))
  }

  lemma DescendEmpty(path: string)
    ensures Descend([], path) == None
  {
  }

  /** What lies under a path depends only on the entry for its first level. */
  lemma DescendByHead(a: ODict, b: ODict, path: string)
    requires Get(a, Strings.SplitOnce(path, '.').0) == Get(b, Strings.SplitOnce(path, '.').0)
    ensures Descend(a, path) == Descend(b, path)
  {
  }

  /** A write leaves every path that parts from the written one as it was. */
  lemma {:induction false} SetNestedFrame(data: ODict, p: string, q: string, value: Value)
    requires Diverges(p, q)
    requires SetNestedFieldValue(data, p, value).Ok?
    ensures Descend(SetNestedFieldValue(data, p, value).value, q) == Descend(data, q)
    decreases |p|
  {
    var r := SetNestedFieldValue(data, p, value).value;
    var (ph, pr) := Strings.SplitOnce(p, '.');
    var (qh, qr) := Strings.SplitOnce(q, '.');
    var sub := match Get<Value>(data, ph) case Some(Obj(s)) => s case _ => [];
    var written := if pr.None? then value else Obj(SetNestedFieldValue(sub, pr.value, value).value);
    assert r == Put(data, ph, written);
    if ph != qh {
      PutOther(data, ph, written, qh);
      DescendByHead(r, data, q);
    } else {
      var sub' := SetNestedFieldValue(sub, pr.value, value).value;
      assert Get(r, ph) == Some(Obj(sub'));
      assert Descend(r, q) == Descend(sub', qr.value);
      SetNestedFrame(sub, pr.value, qr.value, value);
      if Get(data, ph).None? {
        DescendEmpty(qr.value);
      }
    }
  }

  /** Writing the same value twice is the same as writing it once. */
  lemma PutPut<V>(m: OMap<V>, k: string, v: V)
    ensures Put(Put(m, k, v), k, v) == Put(m, k, v)
  {
    var r := Put(m, k, v);
    var i := Find(r, k).value;
    FindIs(r, k, i);
    assert r[i] == (k, v);
    assert r[i := (k, v)] == r;
  }

  lemma {:induction false} SetNestedIdempotent(data: ODict, path: string, value: Value)
    requires SetNestedFieldValue(data, path, value).Ok?
    ensures SetNestedFieldValue(SetNestedFieldValue(data, path, value).value, path, value)
            == SetNestedFieldValue(data, path, value)
    decreases |path|
  {
    var r := SetNestedFieldValue(data, path, value).value;
    match Strings.SplitOnce(path, '.')
    case (head, None) =>
      PutPut(data, head, value);
    case (head, Some(rest)) =>
      var sub := match Get<Value>(data, head) case Some(Obj(s)) => s case _ => [];
      var sub' := SetNestedFieldValue(sub, rest, value).value;
      assert r == Put(data, head, Obj(sub'));
      assert Get(r, head) == Some(Obj(sub'));
      SetNestedIdempotent(sub, rest, value);
      PutPut(data, head, Obj(sub'));
  }

  /** No level on the way down `field` has a literal key with a dot that the exact-key test would pick first. */
  predicate NoDottedShadow(d: ODict, field: string)
    decreases |field|
  {
    match Strings.SplitOnce(field, '.')
    case (_, None) => true
    case (head, Some(rest)) =>
      && !HasKey(d, field)
      && match Get<Value>(d, head)
         case Some(Obj(sub)) => NoDottedShadow(sub, rest)
         case _ => true
  }

  /** A write keeps shadowing keys out of the written path. */
  lemma {:induction false} SetKeepsNoShadow(d: ODict, field: string, value: Value)
    requires NoDottedShadow(d, field)
    requires SetNestedFieldValue(d, field, value).Ok?
    ensures NoDottedShadow(SetNestedFieldValue(d, field, value).value, field)
    decreases |field|
  {
    var d' := SetNestedFieldValue(d, field, value).value;
    match Strings.SplitOnce(field, '.')
    case (head, None) =>
    case (head, Some(rest)) =>
      assert field != head;
      assert HasKey(d', field) == HasKey(d, field);
      var sub := match Get<Value>(d, head) case Some(Obj(s)) => s case _ => [];
      if Get<Value>(d, head).None? {
        assert NoDottedShadow([], rest) by {
          NoShadowInEmpty(rest);
        }
      }
      SetKeepsNoShadow(sub, rest, value);
  }

  lemma NoShadowInEmpty(field: string)
    ensures NoDottedShadow([], field)
  {
  }
}

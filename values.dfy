/** Python dictionaries with string keys, and the JSON-like values that table rows hold. */
module Values {

  import opened Wrappers
  import Strings
  import Sequences

  /** An insertion-ordered dictionary: its (key, value) entries in order. */
  type OMap<V> = seq<(string, V)>

  function Keys<V>(m: OMap<V>): (ks: seq<string>)
    ensures |ks| == |m|
    ensures forall i :: 0 <= i < |m| ==> ks[i] == m[i].0
  {
    seq(|m|, i requires 0 <= i < |m| => m[i].0)
  }

  /** No key occurs twice, as in every Python `dict`. */
  predicate Distinct<V>(m: OMap<V>) {
    forall i, j :: 0 <= i < j < |m| ==> m[i].0 != m[j].0
  }

  /** The first position at or after `from` whose key is `k`. */
  function FindFrom<V>(m: OMap<V>, k: string, from: nat): (r: Option<nat>)
    requires from <= |m|
    ensures r.Some? ==> from <= r.value < |m| && m[r.value].0 == k
    ensures r.Some? ==> forall j :: from <= j < r.value ==> m[j].0 != k
    ensures r.None? ==> forall j :: from <= j < |m| ==> m[j].0 != k
    decreases |m| - from
  {
    if from == |m| then None
    else if m[from].0 == k then Some(from)
    else FindFrom(m, k, from + 1)
  }

  /** The position of the entry for `k`. */
  function Find<V>(m: OMap<V>, k: string): (r: Option<nat>)
    ensures r.Some? ==> r.value < |m| && m[r.value].0 == k
    ensures r.Some? ==> forall j :: 0 <= j < r.value ==> m[j].0 != k
    ensures r.None? ==> forall j :: 0 <= j < |m| ==> m[j].0 != k
  {
    FindFrom(m, k, 0)
  }

  /** `k in m` */
  predicate HasKey<V>(m: OMap<V>, k: string) {
    k in Keys(m)
  }

  /** `m.get(k)`: the value stored for `k`, if any. */
  function Get<V>(m: OMap<V>, k: string): (r: Option<V>)
    ensures r.Some? <==> HasKey(m, k)
    ensures r.Some? ==> (k, r.value) in m
  {
    match Find(m, k)
    case Some(i) => Some(m[i].1)
    case None => None
  }

  /** A lookup inspects the first entry, then the rest. */
  lemma GetCons<V>(x: (string, V), m: OMap<V>, k: string)
    ensures Get([x] + m, k) == if x.0 == k then Some(x.1) else Get(m, k)
  {
    var xm := [x] + m;
    if x.0 != k {
      match Find(m, k)
      case Some(i) =>
        assert xm[i + 1] == m[i];
        assert forall j :: 0 <= j < i + 1 ==> xm[j].0 != k by {
          forall j | 0 < j < i + 1 ensures xm[j].0 != k {
            assert xm[j] == m[j - 1];
          }
        }
        FindIs(xm, k, i + 1);
      case None =>
        assert forall j :: 0 <= j < |xm| ==> xm[j].0 != k by {
          forall j | 0 < j < |xm| ensures xm[j].0 != k {
            assert xm[j] == m[j - 1];
          }
        }
    } else {
      FindIs(xm, k, 0);
    }
  }

  /** An entry with `k` and none before it is what `Find` reports. */
  lemma FindIs<V>(m: OMap<V>, k: string, i: nat)
    requires i < |m| && m[i].0 == k
    requires forall j :: 0 <= j < i ==> m[j].0 != k
    ensures Find(m, k) == Some(i)
  {
  }

  /** `m[k] = v`: replaces the entry for `k` where it stands, or appends one. */
  function Put<V>(m: OMap<V>, k: string, v: V): (r: OMap<V>)
    ensures Get(r, k) == Some(v)
    ensures Keys(r) == if HasKey(m, k) then Keys(m) else Keys(m) + [k]
  {
    match Find(m, k)
    case Some(i) =>
      var r := m[i := (k, v)];
      FindIs(r, k, i);
      assert Keys(r) == Keys(m);
      r
    case None =>
      var r := m + [(k, v)];
      FindIs(r, k, |m|);
      assert Keys(r) == Keys(m) + [k];
      r
  }

  /** Writing one key leaves the others as they were. */
  lemma PutOther<V>(m: OMap<V>, k: string, v: V, k': string)
    requires k' != k
    ensures Get(Put(m, k, v), k') == Get(m, k')
  {
    var r := Put(m, k, v);
    assert forall j :: 0 <= j < |m| ==> r[j].0 == m[j].0 && (r[j].0 == k' ==> r[j] == m[j]);
    match Find(m, k')
    case Some(i) =>
      FindIs(r, k', i);
    case None =>
      assert forall j :: 0 <= j < |r| ==> r[j].0 != k';
  }

  lemma PutDistinct<V>(m: OMap<V>, k: string, v: V)
    requires Distinct(m)
    ensures Distinct(Put(m, k, v))
  {
    var r := Put(m, k, v);
    assert forall i :: 0 <= i < |r| ==> r[i].0 == Keys(r)[i];
    assert forall i :: 0 <= i < |m| ==> m[i].0 == Keys(m)[i];
  }

  /** A key of `Put(m, k, v)` is `k` or a key of `m`. */
  lemma PutKeys<V>(m: OMap<V>, k: string, v: V, k': string)
    requires HasKey(Put(m, k, v), k')
    ensures k' == k || HasKey(m, k')
  {
  }

  /** A prefix one entry longer is the prefix with that entry appended. */
  lemma PrefixSnoc<V>(m: OMap<V>, i: nat)
    requires i < |m|
    ensures m[..i] + [m[i]] == m[..i + 1]
  {
    var a, b := m[..i], m[..i + 1];
    assert a + [m[i]] == b;
  }

  /** A prefix of a map with distinct keys has distinct keys. */
  lemma PrefixDistinct<V>(m: OMap<V>, n: nat)
    requires Distinct(m) && n <= |m|
    ensures Distinct(m[..n])
  {
    var p := m[..n];
    forall a, b | 0 <= a < b < |p| ensures p[a].0 != p[b].0 {
      assert p[a] == m[a] && p[b] == m[b];
    }
  }

  /** Writing a key that is absent appends its entry. */
  lemma PutAbsent<V>(m: OMap<V>, k: string, v: V)
    requires !HasKey(m, k)
    ensures Put(m, k, v) == m + [(k, v)]
  {
  }

  /** How many entries of `m` have key `k`. */
  function KeyCount<V>(m: OMap<V>, k: string): (n: nat)
    ensures n <= |m|
    ensures n == 0 <==> !HasKey(m, k)
  {
    if m == [] then 0 else (if m[0].0 == k then 1 else 0) + KeyCount(m[1..], k)
  }

  /**
   * `del m[k]` for every entry with key `k`: the other entries stay, in their order. Being a
   * subsequence of `m` that keeps exactly the entries whose key is not `k` pins `r` down.
   */
  function Remove<V>(m: OMap<V>, k: string): (r: OMap<V>)
    ensures forall i :: 0 <= i < |r| ==> r[i] in m && r[i].0 != k
    ensures forall i :: 0 <= i < |m| && m[i].0 != k ==> m[i] in r
    ensures |r| == |m| - KeyCount(m, k)
    ensures Sequences.IsSubsequence(r, m)
  {
    if m == [] then []
    else
      var tail := m[1..];
      var rest := Remove(tail, k);
      if m[0].0 == k then
        rest
      else
        var r := [m[0]] + rest;
        assert r[1..] == rest;
        r
  }

  /** A subsequence of `m` with no entry for `k` is at most as long as what `Remove` keeps. */
  lemma {:induction false} FilterBound<V>(m: OMap<V>, k: string, r: OMap<V>)
    requires Sequences.IsSubsequence(r, m) && forall i :: 0 <= i < |r| ==> r[i].0 != k
    ensures |r| <= |m| - KeyCount(m, k)
    decreases |m|
  {
    if r != [] {
      if r[0] == m[0] && Sequences.IsSubsequence(r[1..], m[1..]) {
        FilterBound(m[1..], k, r[1..]);
      } else {
        FilterBound(m[1..], k, r);
      }
    }
  }

  /** `Remove` is the only subsequence of `m` that drops just the entries for `k`. */
  lemma {:induction false} RemoveUnique<V>(m: OMap<V>, k: string, r: OMap<V>)
    requires Sequences.IsSubsequence(r, m) && forall i :: 0 <= i < |r| ==> r[i].0 != k
    requires |r| == |m| - KeyCount(m, k)
    ensures r == Remove(m, k)
    decreases |m|
  {
    if m != [] {
      var tail := m[1..];
      if r == [] {
        assert |Remove(m, k)| == 0;
      } else if r[0] == m[0] && Sequences.IsSubsequence(r[1..], tail) {
        RemoveUnique(tail, k, r[1..]);
        assert r == [r[0]] + r[1..];
      } else {
        assert Sequences.IsSubsequence(r, tail);
        FilterBound(tail, k, r);
        RemoveUnique(tail, k, r);
      }
    }
  }

  /** After removing `k`, `k` is absent and every other key reads as before. */
  lemma {:induction false} GetRemove<V>(m: OMap<V>, k: string, k': string)
    ensures Get(Remove(m, k), k') == if k' == k then None else Get(m, k')
    decreases |m|
  {
    if m != [] {
      var x, t := m[0], m[1..];
      assert m == [x] + t;
      GetCons(x, t, k');
      GetRemove(t, k, k');
      if x.0 == k {
        assert Remove(m, k) == Remove(t, k);
      } else {
        assert Remove(m, k) == [x] + Remove(t, k);
        GetCons(x, Remove(t, k), k');
      }
    }
  }

  lemma {:induction false} RemoveAppend<V>(a: OMap<V>, b: OMap<V>, k: string)
    ensures Remove(a + b, k) == Remove(a, k) + Remove(b, k)
    decreases |a|
  {
    if a == [] {
      assert a + b == b;
    } else {
      assert (a + b)[1..] == a[1..] + b;
      RemoveAppend(a[1..], b, k);
    }
  }

  lemma {:induction false} RemoveAbsent<V>(m: OMap<V>, k: string)
    requires forall j :: 0 <= j < |m| ==> m[j].0 != k
    ensures Remove(m, k) == m
    decreases |m|
  {
    if m != [] {
      RemoveAbsent(m[1..], k);
    }
  }

  /** The value of one dictionary field or list item, as loaded from JSON, CSV or a spreadsheet. */
  datatype Value =
    | Null
    | Bool(b: bool)
    | Int(i: int)
    | Str(s: string)
    | List(items: seq<Value>)
    | Obj(fields: seq<(string, Value)>)

  /** A dictionary of values: a flat or nested row, or the fields of an `Obj`. */
  type ODict = OMap<Value>

  /** Python's `bool(v)`. */
  predicate Truthy(v: Value) {
    match v
    case Null => false
    case Bool(b) => b
    case Int(i) => i != 0
    case Str(s) => s != []
    case List(items) => items != []
    case Obj(fields) => fields != []
  }

  /**
   * Python's `k in container` for a text `k`: a key test on a dictionary, a substring test on a
   * text, an item test on a list; any other value is not a container and raises TypeError.
   */
  function ContainsKey(container: Value, k: string): (r: Result<bool>)
    ensures r.Ok? <==> container.Obj? || container.Str? || container.List?
    ensures r.Err? ==> r.error == TypeError
    ensures container.Obj? ==> r == Ok(HasKey(container.fields, k))
    ensures container.List? ==> r == Ok(Str(k) in container.items)
    ensures container.Str? ==> r == Ok(Strings.Contains(container.s, k))
  {
    match container
    case Obj(fields) => Ok(HasKey(fields, k))
    case Str(s) => Ok(Strings.Contains(s, k))
    case List(items) => Ok(Str(k) in items)
    case _ => Err(TypeError)
  }

  /** No value of `d` is itself a dictionary. */
  predicate NoObjects(d: ODict) {
    forall i :: 0 <= i < |d| ==> !d[i].1.Obj?
  }
}

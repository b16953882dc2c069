/**
 * Sequential surrogate ids (`IdMap`): per bucket, the largest id handed out
 * and the two directions value -> id and id -> value. Buckets are created
 * empty on first use, as Python's `defaultdict(IdMap)` does.
 */
module IdMaps {

  import opened Wrappers

  datatype IdMap<K> = IdMap(maxId: int, valueToId: map<K, int>, idToValue: map<int, K>)

  /** `IdMap()`: no ids yet, `max_id = 0`. */
  function Empty<K>(): IdMap<K> {
    IdMap(0, map[], map[])
  }

  /** Every recorded value maps to an id that maps back to it, and no recorded id exceeds `maxId`. */
  ghost predicate Valid<K>(m: IdMap<K>) {
    && (forall k :: k in m.valueToId ==> m.valueToId[k] in m.idToValue && m.idToValue[m.valueToId[k]] == k)
    && (forall i :: i in m.idToValue ==> i <= m.maxId)
  }

  lemma EmptyValid<K>()
    ensures Valid(Empty<K>())
  {
  }

  /** In a valid map no two values share an id. */
  lemma ValidInjective<K>(m: IdMap<K>, a: K, b: K)
    requires Valid(m) && a in m.valueToId && b in m.valueToId && a != b
    ensures m.valueToId[a] != m.valueToId[b]
  {
    assert m.idToValue[m.valueToId[a]] == a;
    assert m.idToValue[m.valueToId[b]] == b;
  }

  /**
   * The lookup-or-allocate step of `assign_id`/`get_id`: the map afterwards, the id, and whether
   * the value already had one. A new value gets `maxId + 1`, which becomes the new maximum.
   */
  function Obtain<K>(m: IdMap<K>, k: K): (r: (IdMap<K>, int, bool))
    ensures r.2 <==> k in m.valueToId
    ensures r.0.valueToId == m.valueToId[k := r.1]
    ensures r.2 ==> r.0 == m
    ensures !r.2 ==> r.1 == m.maxId + 1 == r.0.maxId && r.0.idToValue == m.idToValue[r.1 := k]
  {
    if k in m.valueToId then (m, m.valueToId[k], true)
    else
      var id := m.maxId + 1;
      (IdMap(id, m.valueToId[k := id], m.idToValue[id := k]), id, false)
  }

  /** Allocation keeps the map valid, and a newly allocated id was not in use before. */
  lemma ObtainValid<K>(m: IdMap<K>, k: K)
    requires Valid(m)
    ensures Valid(Obtain(m, k).0)
    ensures !Obtain(m, k).2 ==> Obtain(m, k).1 !in m.idToValue
  {
    var (m', id, existed) := Obtain(m, k);
    if !existed {
      forall k' | k' in m'.valueToId
        ensures m'.valueToId[k'] in m'.idToValue && m'.idToValue[m'.valueToId[k']] == k'
      {
        if k' != k {
          assert m.valueToId[k'] in m.idToValue;
          assert m.valueToId[k'] <= m.maxId;
        }
      }
    }
  }

  /** Asking again for a value gives the same id and changes nothing. */
  lemma ObtainAgain<K>(m: IdMap<K>, k: K)
    ensures var (m', id, _) := Obtain(m, k);
            Obtain(m', k) == (m', id, true)
  {
  }

  /** Values obtained one after the other in a valid map get the same id exactly when they are equal. */
  lemma ObtainDistinct<K>(m: IdMap<K>, a: K, b: K)
    requires Valid(m)
    ensures var (m1, ida, _) := Obtain(m, a);
            var (_, idb, _) := Obtain(m1, b);
            ida == idb <==> a == b
  {
    var (m1, ida, _) := Obtain(m, a);
    ObtainValid(m, a);
    if a != b && b in m1.valueToId {
      ValidInjective(m1, a, b);
    }
  }

  /**
   * `set_id`'s update: raises ValueError when `id` is already taken; otherwise records both
   * directions and raises `maxId` to `id` if `id` is larger.
   */
  function SetId<K>(m: IdMap<K>, k: K, id: int): (r: Result<IdMap<K>>)
    ensures r.Err? <==> id in m.idToValue
    ensures r.Err? ==> r.error == ValueError(IdExists(id))
    ensures r.Ok? ==> r.value.valueToId == m.valueToId[k := id] && r.value.idToValue == m.idToValue[id := k]
    ensures r.Ok? ==> r.value.maxId == (if id > m.maxId then id else m.maxId)
  {
    if id in m.idToValue then Err(ValueError(IdExists(id)))
    else Ok(IdMap(if id > m.maxId then id else m.maxId, m.valueToId[k := id], m.idToValue[id := k]))
  }

  /** Recording an unused id keeps the map valid. */
  lemma SetIdValid<K>(m: IdMap<K>, k: K, id: int)
    requires Valid(m) && SetId(m, k, id).Ok?
    ensures Valid(SetId(m, k, id).value)
  {
    var m' := SetId(m, k, id).value;
    forall k' | k' in m'.valueToId
      ensures m'.valueToId[k'] in m'.idToValue && m'.idToValue[m'.valueToId[k']] == k'
    {
      if k' != k {
        assert m.valueToId[k'] in m.idToValue;
      }
    }
  }

  /** The bucket `b` of a table of buckets, empty when it has not been used yet. */
  function BucketOf<B, K>(buckets: map<B, IdMap<K>>, b: B): IdMap<K> {
    if b in buckets then buckets[b] else Empty()
  }

  /** Every bucket of a table of buckets is valid. */
  ghost predicate BucketsValid<B, K>(buckets: map<B, IdMap<K>>) {
    forall b :: b in buckets ==> Valid(buckets[b])
  }

  /** A bucket of a valid table is valid, the empty one included. */
  lemma BucketOfValid<B, K>(buckets: map<B, IdMap<K>>, b: B)
    requires BucketsValid(buckets)
    ensures Valid(BucketOf(buckets, b))
  {
    EmptyValid<K>();
  }

  /** Replacing one bucket of a valid table by a valid map keeps the table valid. */
  lemma UpdateValid<B, K>(buckets: map<B, IdMap<K>>, b: B, m: IdMap<K>)
    requires BucketsValid(buckets) && Valid(m)
    ensures BucketsValid(buckets[b := m])
  {
  }

  /** `IdContextMap`: one `IdMap` per bucket, created on first access. */
  class IdContextMap<B(==), K(==)> {
    var buckets: map<B, IdMap<K>>

    /** `create_id_context_map()` */
    constructor()
      ensures buckets == map[]
    {
      buckets := map[];
    }

    /** `id_context_map[b]` as the `defaultdict` would produce it. */
    function Bucket(b: B): IdMap<K>
      reads this
    {
      BucketOf(buckets, b)
    }

    ghost predicate AllValid()
      reads this
    {
      BucketsValid(buckets)
    }

    /** Looks `k` up in bucket `b`, allocating the next id there when it has none. */
    method GetId(b: B, k: K) returns (id: int, existed: bool)
      modifies this
      ensures var (m', i, e) := Obtain(old(Bucket(b)), k);
              buckets == old(buckets)[b := m'] && id == i && existed == e
      ensures old(AllValid()) ==> AllValid()
    {
      var m := Bucket(b);
      if AllValid() {
        EmptyValid<K>();
        ObtainValid(m, k);
      }
      var (m', i, e) := Obtain(m, k);
      buckets := buckets[b := m'];
      id, existed := i, e;
    }

    /** `id_context_map[b]` on its own: creates bucket `b` if it is new. */
    method Touch(b: B)
      modifies this
      ensures buckets == old(buckets)[b := old(Bucket(b))]
      ensures old(AllValid()) ==> AllValid()
    {
      EmptyValid<K>();
      buckets := buckets[b := Bucket(b)];
    }

    /** Records `id` for `k` in bucket `b`; the bucket is created even when the id is taken. */
    method SetIdIn(b: B, k: K, id: int) returns (o: Outcome)
      modifies this
      ensures match SetId(old(Bucket(b)), k, id)
              case Ok(m') => buckets == old(buckets)[b := m'] && o == Pass
              case Err(e) => buckets == old(buckets)[b := old(Bucket(b))] && o == Fail(e)
      ensures old(AllValid()) ==> AllValid()
    {
      var m := Bucket(b);
      match SetId(m, k, id) {
        case Ok(m') =>
          if AllValid() {
            EmptyValid<K>();
            SetIdValid(m, k, id);
          }
          buckets := buckets[b := m'];
          o := Pass;
        case Err(e) =>
          buckets := buckets[b := m];
          o := Fail(e);
      }
    }
  }
}

/**
 * Reading rows in the later versions (`tabpro`): the reserved keys, the dotted
 * getter that also indexes lists, and the three-tier column search over the
 * staging area, the input snapshot kept in it, and the row itself.
 */
module Lookup {

  import opened Wrappers
  import opened Values
  import Strings
  import NestedField

  /** The key under which a row carries its working values. */
  const Staging := "__staging__"
  /** The key, inside the staging area, of the snapshot of the input row. */
  const Input := "__input__"
  /** `f'{STAGING_FIELD}.{INPUT_FIELD}'` */
  const StagingInput := Staging + "." + Input

  /**
   * `get_nested_field_value(data, key)`: a key present as a whole is read first; otherwise the
   * first dot splits the key, a dictionary is entered by its key and a list by a decimal index
   * within range. Anything else is not found.
   */
  function Resolve(data: Value, key: string): (r: Option<Value>)
    ensures data.Obj? && HasKey(data.fields, key) ==> r == Get(data.fields, key)
    ensures !data.Obj? && !data.List? ==> r.None?
    decreases |key|
  {
    match data
    case Obj(fields) =>
      if HasKey(fields, key) then Get(fields, key)
      else
        (match Strings.SplitOnce(key, '.')
         case (_, None) => None
         case (head, Some(rest)) =>
           match Get(fields, head)
           case Some(child) => Resolve(child, rest)
           case None => None)
    case List(items) =>
      var (head, rest) := Strings.SplitOnce(key, '.');
      (match Strings.ParseInt(head)
       case Some(n) =>
         if 0 <= n < |items| then
           match rest
           case None => Some(items[n])
           case Some(tail) => Resolve(items[n], tail)
         else None
       case None => None)
    case _ => None
  }

  /** Without literal dotted keys on the way, the getter finds what a dotted write stored. */
  lemma {:induction false} ResolveDescend(d: ODict, key: string)
    requires NestedField.NoDottedShadow(d, key)
    requires NestedField.Descend(d, key).Some?
    ensures Resolve(Obj(d), key) == NestedField.Descend(d, key)
    decreases |key|
  {
    match Strings.SplitOnce(key, '.')
    case (head, None) =>
    case (head, Some(rest)) =>
      match Get<Value>(d, head)
      case Some(Obj(sub)) =>
        ResolveDescend(sub, rest);
      case _ =>
  }

  /** Reading back a dotted write, as in `row['a.b.c'] = 123` followed by `row['a.b.c']`. */
  lemma ResolveAfterSet(d: ODict, key: string, value: Value)
    requires NestedField.NoDottedShadow(d, key)
    requires NestedField.SetNestedFieldValue(d, key, value).Ok?
    ensures Resolve(Obj(NestedField.SetNestedFieldValue(d, key, value).value), key) == Some(value)
  {
    NestedField.SetKeepsNoShadow(d, key, value);
    ResolveDescend(NestedField.SetNestedFieldValue(d, key, value).value, key);
  }

  /** A decimal index reads the list item it names, and nothing when it is out of range. */
  lemma ResolveIndex(items: seq<Value>, i: int)
    ensures Resolve(List(items), Strings.IntToString(i)) == if 0 <= i < |items| then Some(items[i]) else None
  {
    var digits := Strings.IntToString(i);
    IntToStringDotFree(i);
    assert Strings.SplitOnce(digits, '.') == (digits, None);
    Strings.ParseIntToString(i);
  }

  /** `row['d1.a.1']` on a row whose `d1.a` holds a list reads its item 1; `row.get('d1.a.3')` on three items finds nothing. */
  lemma ResolveListIndex(fields: ODict, k: string, items: seq<Value>, i: int)
    requires '.' !in k && Get(fields, k) == Some(List(items))
    requires !HasKey(fields, k + "." + Strings.IntToString(i))
    ensures Resolve(Obj(fields), k + "." + Strings.IntToString(i))
            == if 0 <= i < |items| then Some(items[i]) else None
  {
    var digits := Strings.IntToString(i);
    assert k + "." + digits == k + ['.'] + digits;
    Strings.SplitOnceJoined(k, digits, '.');
    assert Resolve(Obj(fields), k + "." + digits) == Resolve(List(items), digits);
    ResolveIndex(items, i);
  }

  lemma IntToStringDotFree(i: int)
    ensures '.' !in Strings.IntToString(i)
  {
    var d := Strings.Decimal(if i < 0 then -i else i);
    assert forall j :: 0 <= j < |d| ==> Strings.IsDigit(d[j]);
    if i < 0 {
      assert Strings.IntToString(i) == "-" + d;
      assert forall j :: 0 <= j < |"-" + d| ==> ("-" + d)[j] != '.' by {
        forall j | 0 <= j < |"-" + d| ensures ("-" + d)[j] != '.' {
          if j > 0 {
            assert ("-" + d)[j] == d[j - 1];
          }
        }
      }
    }
  }

  /**
   * `search_column_value(row, column)` of the later versions: the column under the staging
   * area, else under the input snapshot, else in the row itself, each read by its whole dotted
   * path, so that a flat row with dotted keys and a nested row are searched alike. Nothing is written back.
   */
  function Search(row: ODict, column: string): (r: Option<Value>)
    ensures Resolve(Obj(row), Staging + "." + column).Some? ==> r == Resolve(Obj(row), Staging + "." + column)
    ensures Resolve(Obj(row), Staging + "." + column).None? && Resolve(Obj(row), StagingInput + "." + column).Some?
            ==> r == Resolve(Obj(row), StagingInput + "." + column)
    ensures Resolve(Obj(row), Staging + "." + column).None? && Resolve(Obj(row), StagingInput + "." + column).None?
            ==> r == Resolve(Obj(row), column)
    ensures r.None? ==> Resolve(Obj(row), column).None?
  {
    match Resolve(Obj(row), Staging + "." + column)
    case Some(v) => Some(v)
    case None =>
      match Resolve(Obj(row), StagingInput + "." + column)
      case Some(v) => Some(v)
      case None => Resolve(Obj(row), column)
  }

  /**
   * `search_column_value_from_nested(nested, column)`: the same three tiers read level by level.
   * The staging area is indexed unconditionally past the first tier, so a row without it raises KeyError.
   */
  function SearchFromNested(nested: ODict, column: string): (r: Result<Option<Value>>)
    ensures r.Err? <==> !HasKey(nested, Staging)
    ensures r.Err? ==> r.error == KeyError(Staging)
  {
    if !HasKey(nested, Staging) then Err(KeyError(Staging))
    else
      var staging := Get(nested, Staging).value;
      match Resolve(staging, column)
      case Some(v) => Ok(Some(v))
      case None =>
        var fromInput := match Resolve(Obj(nested), StagingInput)
                         case Some(original) => Resolve(original, column)
                         case None => None;
        if fromInput.Some? then Ok(fromInput) else Ok(Resolve(Obj(nested), column))
  }

  /** No key of `d` contains a dot. */
  predicate DotFreeKeys(d: ODict) {
    forall i :: 0 <= i < |d| ==> '.' !in d[i].0
  }

  /** Entering a dictionary with dot-free keys along a dotted key is one step of the getter. */
  lemma ResolveStep(fields: ODict, head: string, rest: string)
    requires DotFreeKeys(fields) && '.' !in head
    ensures Resolve(Obj(fields), head + "." + rest)
            == match Get(fields, head) case Some(c) => Resolve(c, rest) case None => None
  {
    assert head + "." + rest == head + ['.'] + rest;
    Strings.SplitOnceJoined(head, rest, '.');
  }

  /**
   * On a nested row with a staging area whose top two levels have no dotted keys,
   * reading level by level finds the same as reading by whole paths.
   */
  lemma SearchFromNestedAgrees(nested: ODict, column: string)
    requires HasKey(nested, Staging) && DotFreeKeys(nested)
    requires Get(nested, Staging).value.Obj? ==> DotFreeKeys(Get(nested, Staging).value.fields)
    ensures SearchFromNested(nested, column) == Ok(Search(nested, column))
  {
    var staging := Get(nested, Staging).value;
    var original := Resolve(Obj(nested), StagingInput);
    var fromInput := match original case Some(o) => Resolve(o, column) case None => None;
    assert Resolve(Obj(nested), Staging + "." + column) == Resolve(staging, column) by {
      ResolveStep(nested, Staging, column);
    }
    assert original == Resolve(staging, Input) by {
      ResolveStep(nested, Staging, Input);
    }
    assert Resolve(Obj(nested), StagingInput + "." + column) == fromInput by {
      ResolveStep(nested, Staging, Input + "." + column);
      DottedPath(Staging, Input, column);
      InputTier(staging, column);
    }
  }

  /** The input tier read as one path below the staging area, or as two steps. */
  lemma InputTier(staging: Value, column: string)
    requires staging.Obj? ==> DotFreeKeys(staging.fields)
    ensures Resolve(staging, Input + "." + column)
            == match Resolve(staging, Input) case Some(o) => Resolve(o, column) case None => None
  {
    assert Input + "." + column == Input + ['.'] + column;
    Strings.SplitOnceJoined(Input, column, '.');
    assert Strings.SplitOnce(Input, '.') == (Input, None);
    match staging {
      case Obj(sf) =>
        ResolveStep(sf, Input, column);
      case List(items) =>
        NotAnIndex();
      case _ =>
    }
  }

  /** A row without a staging area and without dotted keys is searched by plain lookup. */
  lemma SearchPlain(row: ODict, column: string)
    requires DotFreeKeys(row) && !HasKey(row, Staging) && '.' !in column
    ensures Search(row, column) == Get(row, column)
  {
    assert Resolve(Obj(row), Staging + "." + column).None? by {
      ResolveStep(row, Staging, column);
    }
    assert Resolve(Obj(row), StagingInput + "." + column).None? by {
      ResolveStep(row, Staging, Input + "." + column);
      DottedPath(Staging, Input, column);
    }
    assert Resolve(Obj(row), column) == Get(row, column) by {
      assert Strings.SplitOnce(column, '.') == (column, None);
    }
  }

  /** A three-part dotted path read as its head and the dotted rest. */
  lemma DottedPath(a: string, b: string, c: string)
    ensures a + "." + b + "." + c == a + "." + (b + "." + c)
  {
  }

  /** The reserved input key is not a list index. */
  lemma NotAnIndex()
    ensures Strings.ParseInt(Input).None?
  {
    assert Strings.Strip(Input) == Input by {
      Strings.StripKeeps(Input);
    }
    assert !Strings.IsDigit(Input[2]);
  }
}

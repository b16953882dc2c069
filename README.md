# tabpro row conversion, modelled in Dafny

tabpro (published in earlier versions as `table_converter` and `table_processor`) converts
tables: it loads every row of every input file, rewrites each row through a fixed series of
steps, and hands the rows to a writer. This project models that row core.

- **Dotted paths.** A column name such as `a.b.c` addresses a nested dictionary.
  - `set_nested_field_value` writes through such a path and creates missing levels.
  - `get_field_value` and `get_nested_field_value` read through it. A key that is present as a whole is tried first.
- **Two row views.** A row keeps a flat view, whose keys are dotted paths and whose values are not dictionaries, and a nested view.
  - `Row` (tabpro) writes both views on `row[key] = value`.
  - `set_row_value`, `pop_row_value` and `remap_columns` (table_converter actions) keep the two views in step. A value written as a dictionary is expanded into flat leaves, under a depth guard of 10.
- **Searching a column.** A column is looked for under the staging area (`__debug__` in table_converter, `__staging__` later), then in the snapshot of the input row, then in the row itself.
- **Surrogate ids.** `assign_id` numbers rows in buckets of an `IdContextMap`. A bucket is selected by the context columns, their values and the primary columns. Within a bucket, each new tuple of primary values gets the bucket's largest id plus one.
- **The two `convert` loops.**
  - table_converter: argument parsing, then per row a snapshot, constants, picks, newline splits, ids, a second pick, and finally dropping `__debug__`.
  - tabpro: an ignore set, a bookkeeping stamp, `assign_array`, the action pipeline, picks, and stripping the staging area.
- **Action configuration.** Actions are parsed from `name:fields:options` strings (`assign-constant`, `split`, `assign`) and applied to rows.

## How the model is built

- Ordered dictionaries are association lists `seq<(string, Value)>` (`Values.ODict`).
  - A lookup takes the first entry with the key.
  - Assignment replaces an entry where it stands, or appends one.
  - `Value` is `Null | Bool | Int | Str | List | Obj`.
- Python exceptions become `Wrappers.Error`: `ValueError(reason)`, `KeyError(key)` or `TypeError`.
  - Pure steps return `Result`.
  - Steps that change state before they raise return the partial state together with an `Outcome`. This covers the depth guard inside a flat write, the configuration loops that append before a bad field, and `row[key] = value` when the nested write raises after the flat one.
- Objects whose fields the source reassigns are classes, and the source's loops are loops.
  - `Rows.Row` is a class with `flat` and `nested` fields.
  - `IdMaps.IdContextMap` is a class whose `buckets` map is updated in place.
  - The loops of `set_flat_field_value`, `delete_flat_row_value`, `pop_nested_row_value`, `remap_columns`, `assign_id`, `assign_array`, the argument parsers and both `convert` row loops are `while`/`for` loops.
  - Nested dictionaries are values. A write into one, such as `set_nested_field_value`, is a function that returns the updated dictionary; see the aliasing line under "Left out".
  - Each loop is proved equal to a specification function, and the lemmas are stated about that function.
- Names of the later versions are constants.
  - Staging and input: `Lookup.Staging = "__staging__"`, `Lookup.Input = "__input__"`.
  - Bookkeeping keys: `__file__`, `__file_row_index__`, `__row_index__`.
  - table_converter: `Converter.Debug = "__debug__"`, and `__debug__.__original__` for the snapshot.

## Model

| member | source | states |
|---|---|---|
| NestedField.SetNestedFieldValue | table_converter/core/functions/set_nested_field_value.py:8-19 | writing succeeds exactly when every existing intermediate level is a dictionary, and otherwise raises TypeError with nothing changed; after a write the value lies at the dotted path and the top-level keys grow by at most the path's head |
| NestedField.SetNestedIntoEmpty | table_converter/core/functions/set_nested_field_value.py:13-17 | a write into an empty dictionary never fails and creates exactly one level per path segment |
| NestedField.DescendByHead | table_converter/core/functions/set_nested_field_value.py:14-17 | what lies under a dotted path depends only on the entry for its first segment |
| NestedField.SetNestedFrame | table_converter/core/functions/set_nested_field_value.py:8-19 | a write leaves every path that parts from the written one as it was |
| NestedField.SetNestedIdempotent | table_converter/core/functions/set_nested_field_value.py:8-19 | writing the same value at the same path twice is writing it once |
| NestedField.PutPut | table_converter/core/functions/set_nested_field_value.py:19 | assigning a key the same value twice is assigning it once |
| NestedField.SetKeepsNoShadow | table_converter/core/functions/set_nested_field_value.py:14-17 | a write never creates a literal dotted key that would shadow the written path |
| Values.Put | table_converter/core/functions/set_nested_field_value.py:19 | `d[k] = v` stores `v` under `k`, keeps the key order when `k` was present and appends `k` otherwise |
| Values.PutOther | table_converter/core/functions/set_nested_field_value.py:19 | assigning one key leaves every other key reading as before |
| Values.PutDistinct | table_converter/core/functions/set_nested_field_value.py:19 | assignment keeps the keys of a dictionary distinct |
| Values.Get | tabpro/core/classes/row.py:26-30 | a lookup finds a value exactly when the key is present, and the value found is that key's entry |
| Values.Remove | table_converter/core/convert.py:373-374 | `pop(k, None)` keeps exactly the entries whose key is not `k`: the result is a subsequence of the dictionary, so their order is kept, and it is shorter by exactly the number of entries for `k` |
| Values.FilterBound | table_converter/core/convert.py:373-374 | no subsequence of the dictionary without an entry for `k` is longer than what the pop keeps |
| Values.RemoveUnique | table_converter/core/convert.py:373-374 | the pop's result is the only subsequence of the dictionary that drops just the entries for `k` |
| Values.GetRemove | table_converter/core/convert.py:373-374 | after the pop, `k` is absent and every other key reads as before |
| Strings.SplitOnce | table_converter/core/functions/set_nested_field_value.py:14 | `split('.', 1)` gives two pieces exactly when there is a dot; the first holds no dot and `head + '.' + rest` is the text |
| Strings.JoinSplit | table_converter/core/convert.py:197 | splitting on a non-empty separator and joining back with it gives the text back |
| Strings.SplitPiecesFree | table_converter/core/convert.py:197 | no piece of a split holds the separator |
| Strings.SplitWhitespace | table_converter/core/actions.py:215 | `split()` yields runs of non-blank characters only |
| Strings.SplitWhitespaceMaximal | table_converter/core/actions.py:215 | each word of `split()` stands in the text as a whole run, with a blank or an end of the text on either side, and each word starts after the previous one and a blank; with `SplitWhitespaceKeepsText` this makes the words exactly the maximal runs of non-blank characters, in order |
| Strings.MaximalFrom | table_converter/core/actions.py:215 | the words of a suffix that begins at the start or at a blank stand whole in the text, past the start of the suffix |
| Strings.SplitWhitespaceKeepsText | table_converter/core/actions.py:215 | the words of `split()` spell exactly the non-blank characters of the text, in order |
| Strings.DropEmpty | table_converter/core/actions.py:216 | `filter(None, parts)` keeps exactly the non-empty pieces: the result is a subsequence of the parts, so their order is kept, and it holds each non-empty piece as often as the parts do and no empty piece |
| Strings.Strip | table_converter/core/actions.py:46-49 | `strip()` gives the slice of the text that has only blanks before and after it and neither starts nor ends with a blank |
| Strings.StripAllBlank | table_converter/core/actions.py:46-49 | a text of blanks only strips to the empty text |
| Strings.ParseIntToString | table_converter/core/actions.py:74 | `int(str(n)) == n` for every integer |
| Strings.StripIntToString | table_converter/core/actions.py:74 | the decimal text of an integer has no blanks around it |
| Strings.Basename | tabpro/core/convert.py:135 | the base name is the suffix after the last '/', and holds no '/' |
| FieldOps.SetFlatFieldValue | table_converter/core/actions.py:132-147 | the recursive expansion with its loop over dictionary keys computes `FlatWrite`, the partial state an exception leaves included |
| FieldOps.FlatWritePasses | table_converter/core/actions.py:138-144 | the depth guard never trips exactly when the value nests no deeper than the limit of 10 |
| FieldOps.FlatWriteLeaves | table_converter/core/actions.py:142-146 | a write that passes the guard stores exactly the value's leaves, at their dotted keys, in order |
| FieldOps.FlatWriteEachLeaves | table_converter/core/actions.py:143-144 | the loop over a dictionary's keys stores the leaves of each value in turn |
| FieldOps.LeavesFlat | table_converter/core/actions.py:142-146 | no leaf is a dictionary, so an empty dictionary value writes nothing |
| FieldOps.FlatWriteKeepsFlat | table_converter/core/actions.py:132-147 | expansion keeps a flat row free of dictionaries and of repeated keys, even when it raises |
| FieldOps.FlatWriteEachKeepsFlat | table_converter/core/actions.py:143-144 | the same for the loop over a dictionary's keys |
| FieldOps.PutNoObjects | table_converter/core/actions.py:146 | storing a non-dictionary keeps a flat row free of dictionaries |
| FieldOps.Without | table_converter/core/actions.py:170-173 | the entries kept are exactly those whose key is neither `target` nor below `target.` |
| FieldOps.DeleteFlatRowValue | table_converter/core/actions.py:166-173 | the loop over a snapshot of the keys deletes exactly the keys under `target`, and keeps the others in order |
| FieldOps.DeleteKey | table_converter/core/actions.py:171-173 | one turn of that loop drops the key at `i` exactly when it lies under `target` |
| FieldOps.DeleteStep | table_converter/core/actions.py:171-173 | in a dictionary with distinct keys, deleting the key at `i` from the partly filtered row is filtering one more entry |
| FieldOps.PopNestedRowValue | table_converter/core/actions.py:175-185 | the walk down all but the last segment, then the pop of the last key, computes `PopAt`, errors included |
| FieldOps.PopAtStopped | table_converter/core/actions.py:181-183 | a walk that finds a key missing, in a dictionary or as `k not in` a text or list, returns the default and changes nothing; a walk where `in` or indexing fails raises TypeError |
| FieldOps.PopAtReached | table_converter/core/actions.py:185 | a walk that reaches a dictionary pops the last key there and writes the smaller level back; a list there raises TypeError (its `pop` takes no default of that kind) and any other value raises AttributeError |
| FieldOps.Enter | table_converter/core/actions.py:181-184 | a loop turn reaches a child exactly when the level is a dictionary holding the key, gives up exactly when `k in level` is false, and otherwise raises TypeError |
| FieldOps.WalkRaisesTypeError | table_converter/core/actions.py:181-184 | the only exception the walk raises is TypeError |
| FieldOps.PopThroughTextMissing | table_converter/core/actions.py:181-183 | `{'a': 'xyz'}` popped at `a.q.r` returns the default, because `'q' not in 'xyz'` |
| FieldOps.PopTextLevel | table_converter/core/actions.py:185 | `{'a': 'xyz'}` popped at `a.b` raises AttributeError, because a text has no `pop` |
| FieldOps.WalkToAppend | table_converter/core/actions.py:181-184 | walking along `s + t` is walking `s` and then, from where it got to, walking `t` |
| FieldOps.WalkReplaceAt | table_converter/core/actions.py:184-185 | after the last level is replaced in place, the same walk reaches the new level |
| FieldOps.DescendWalk | table_converter/core/actions.py:180-185 | the value at a dotted path is what the walk along its segments finds at the last key |
| FieldOps.PopFindsValue | table_converter/core/actions.py:175-185 | a pop that does not raise returns the value stored at the dotted path, or the default when there is none |
| FieldOps.PopMissingUnchanged | table_converter/core/actions.py:182-185 | a pop that finds nothing leaves the nested row unchanged |
| FieldOps.PopRemoves | table_converter/core/actions.py:185 | a dotted path that held a value holds none after the pop |
| Rows.Row.constructor | tabpro/core/classes/row.py:19-21 | a new row has two empty views, length 0, and contains no key |
| Rows.Row.Of | table_converter/core/actions.py:30-33 | the table converter's `Row(flat, nested)` holds exactly the two views given |
| Rows.Row.Get | tabpro/core/classes/row.py:26-30 | `get` returns what the nested getter finds, and the default exactly when the key is not contained |
| Rows.Row.GetItem | tabpro/core/classes/row.py:32-36 | `row[key]` succeeds exactly when the key is contained, returns what `get` returns, and otherwise raises KeyError |
| Rows.Row.Len | tabpro/core/classes/row.py:49-50 | `len` is the number of keys that iteration yields |
| Rows.Row.Iter | tabpro/core/classes/row.py:46-47 | iteration yields the flat keys, in insertion order |
| Rows.Row.SetItem | tabpro/core/classes/row.py:38-40 | `row[key] = value` writes the nested view, then the flat view, and leaves the state `Assign` describes, including the partial state a TypeError or the depth guard leaves |
| Rows.Row.FromDict | tabpro/core/classes/row.py:55-60 | `from_dict` assigns every entry in order into a fresh row |
| Rows.Row.Clone | tabpro/core/classes/row.py:23-24 | `clone` is a fresh row rebuilt from this row's flat view, leaving this row unchanged |
| Rows.AssignFails | tabpro/core/classes/row.py:38-40 | `row[key] = value` raises exactly when the nested path crosses a non-dictionary (TypeError, nothing written) or the value nests too deeply (ValueError) |
| Rows.AssignReadsBack | tabpro/core/classes/row.py:32-40 | after a write that does not raise, `row[key]` reads the value back when no literal dotted key shadows the path; a scalar or a list is also stored under `key` in the flat view |
| Rows.AssignExpands | tabpro/core/classes/row.py:38-40 | assigning a dictionary writes one flat entry per leaf, in order |
| Rows.AssignKeepsFlat | tabpro/core/classes/row.py:38-40 | whatever is assigned, and even when it raises, the flat view keeps distinct keys and no dictionary values |
| Rows.BuildCopiesFlat | tabpro/core/classes/row.py:55-60 | rebuilding a flat dictionary without an exception gives a flat view equal to that dictionary |
| Rows.StaleFlatKey | tabpro/core/classes/row.py:38-40 | after `row['a'] = 1` and `row['a'] = {'b': 1}` the flat view holds both `a` and `a.b`, and `clone` of that row raises TypeError |
| Rows.FlatWriteFails | table_converter/core/actions.py:138-141 | the only exception the flat expansion raises is the depth guard's ValueError |
| Lookup.Resolve | tabpro/core/classes/row.py:27 | the nested getter reads a key present as a whole first; a scalar holds no path |
| Lookup.ResolveDescend | tabpro/core/classes/row.py:27 | without literal dotted keys on the path, the getter finds what the dotted descent finds |
| Lookup.ResolveAfterSet | tabpro/core/classes/row.py:32-40 | `row['a.b.c'] = v` followed by `row['a.b.c']` gives `v` back, when no dotted key shadows the path |
| Lookup.ResolveIndex | tabpro/core/classes/row.py:27 | a decimal index reads the list item it names, and nothing when it is out of range |
| Lookup.ResolveListIndex | tabpro/core/classes/row.py:26-36 | a dotted key ending in an index reads that item of a list stored at the head |
| Lookup.Search | tabpro/core/convert.py:67 | the column is read under the staging area first; only when nothing is there, under the input snapshot `__staging__.__input__`; only when neither has it, in the row itself; nothing found means nothing in the row |
| Lookup.SearchFromNested | tabpro/core/convert.py:75-92 | the level-by-level search raises KeyError exactly when the row has no staging area, because line 83 indexes it unconditionally |
| Lookup.SearchFromNestedAgrees | tabpro/core/convert.py:75-92 | on a row with a staging area and dot-free top levels, the level-by-level search finds what the whole-path search finds |
| Lookup.SearchPlain | tabpro/core/convert.py:89-92 | a row without staging area and without dotted keys is searched by plain lookup |
| Values.ContainsKey | table_converter/core/convert.py:109 | `in` tests the keys of a dictionary, the items of a list and the substrings of a text, and raises TypeError on anything else |
| Converter.GetFieldValue | table_converter/core/convert.py:105-115 | a key present as a whole is returned first; a dot-free absent key is not found; only a dictionary yields values |
| Converter.GetFieldDescend | table_converter/core/convert.py:105-115 | without shadowing keys, `get_field_value` finds exactly what the dotted descent finds |
| Converter.GetAfterSet | table_converter/core/convert.py:92-115 | `set_field_value` followed by `get_field_value` at the same path gives the value back, when no literal dotted key shadows it |
| Converter.ShadowedRead | table_converter/core/convert.py:109-110 | a literal key `a.b` shadows the nested entry that `set_field_value(d, 'a.b', 2)` writes, so the read gives the old value |
| Converter.GetFieldNoShadowFound | table_converter/core/convert.py:105-115 | without shadowing, whatever `get_field_value` finds lies at the dotted path |
| Converter.SetExisting | table_converter/core/convert.py:92-103 | writing the value already at a path changes nothing |
| Converter.SearchColumnValue | table_converter/core/convert.py:117-135 | a row without `__debug__` raises KeyError (line 125); a search that finds nothing leaves the row alone; a search that changes the row found nothing in the first two tiers |
| Converter.RawTier | table_converter/core/convert.py:131-134 | a raw hit is what `get_field_value` finds, and the row changes only by writing it back at the same path |
| Converter.SearchDebugFirst | table_converter/core/convert.py:121-124 | a value under `__debug__` is returned first, and the row is left alone |
| Converter.SearchOriginalSecond | table_converter/core/convert.py:125-130 | failing `__debug__`, a value in `__debug__.__original__` is returned, and the row is left alone |
| Converter.SearchWritesBack | table_converter/core/convert.py:131-134 | after a raw hit the dotted path holds the value found |
| Converter.SearchWriteBackKeepsRow | table_converter/core/convert.py:131-134 | without a shadowing literal key the write-back stores what was there, so the row is unchanged |
| Converter.SearchRawHit | table_converter/core/convert.py:131-134 | a search that changes the row found its value in the raw row and wrote it back at the same path |
| Converter.MapConstants | table_converter/core/convert.py:137-145 | every constant is written under `__debug__.<column>` of a copy, in order |
| Converter.SetEachFrame | table_converter/core/convert.py:142-144 | the constants leave every path that parts from all written paths as it was |
| Converter.SetEachStores | table_converter/core/convert.py:142-144 | when no written path is a prefix of another, each entry reads back at its path |
| Converter.MapConstantsStores | table_converter/core/convert.py:137-145 | constants whose names do not nest into one another all read back under `__debug__` |
| Converter.SetEachUnder | table_converter/core/convert.py:142-144 | entries written under one dot-free head, with names that do not nest, all read back |
| Converter.RemapColumns | table_converter/core/convert.py:172-185 | the loop builds the new row `Remap` describes: found picks written at their targets, then `__debug__` copied |
| Converter.RemapKeys | table_converter/core/convert.py:172-185 | the new row's top-level keys are the heads of picked targets or `__debug__`; unpicked raw columns are dropped |
| Converter.PickEachKeys | table_converter/core/convert.py:177-180 | the pick loop only adds top-level keys that are heads of picked targets |
| Converter.SplitByNewline | table_converter/core/convert.py:196-200 | a text becomes the list of its lines; any other value stays as it is |
| Converter.SplitByNewlineLines | table_converter/core/convert.py:197 | the lines hold no newline and join back with newlines into the text |
| Converter.ApplyFieldsSplitByNewline | table_converter/core/convert.py:187-201 | the loop writes the split value of each found source under `__debug__.<column>` of a copy, each search seeing the `__debug__` the copy shares with the row, and a search error stops it |
| Converter.SharedDebug | table_converter/core/convert.py:191-198 | a search of the loop sees the copy's `__debug__` and otherwise the row |
| Converter.SplitMissingWritesNothing | table_converter/core/convert.py:193-195 | a source that is not found writes nothing |
| Converter.SplitFoundWrites | table_converter/core/convert.py:195-199 | a source that is found is written, split into lines when it is a text, at `__debug__.<column>` of the copy, where `get_field_value` reads it back |
| Converter.SearchAllFrom | table_converter/core/convert.py:237-251 | the column searches append one value per column in order, and a column not found raises KeyError |
| Converter.SearchColumns | table_converter/core/convert.py:238-251 | one column loop of `assign_id` computes `SearchAllFrom` |
| Converter.KeyOf | table_converter/core/convert.py:235-257 | the bucket triple holds the context columns, one value per context column, and the primary columns; there is one primary value per primary column; no value is a `bool`, because the dictionaries see `True` as `1` |
| Converter.HashKey | table_converter/core/convert.py:258-259 | the key form of a value is Python-equal to it, never a `bool`, and hashable exactly when the value is |
| Converter.HashKeys | table_converter/core/convert.py:258-259 | the key form of a tuple has its length and each item in key form |
| Converter.HashKeysSame | table_converter/core/convert.py:258-259 | two tuples of hashable values are the same dictionary key exactly when Python finds them equal item by item |
| Converter.AssignIdStep | table_converter/core/convert.py:234-266 | a step that succeeds had hashable key and values, writes the bucket's id for the primary values at `__debug__.<column>`, and replaces only that bucket |
| Converter.AssignId | table_converter/core/convert.py:228-267 | the method computes `AssignIdAll` on a copy of the row, updating the id table in place, and keeps every bucket valid |
| Converter.AssignIdStepValid | table_converter/core/convert.py:258-265 | a step keeps every bucket valid: ids map back to their values and none exceeds `max_id` |
| Converter.AssignIdAllValid | table_converter/core/convert.py:234-266 | all of a row's assignments keep every bucket valid |
| Converter.AssignIdStepFrame | table_converter/core/convert.py:258 | only the bucket of the row's key may change |
| Converter.AssignIdFirstInBucket | table_converter/core/convert.py:259-262 | the first value numbered in a new bucket gets id 1 |
| Converter.AssignIdSameKey | table_converter/core/convert.py:259-265 | two rows with the same bucket and primary values, one after the other, get the same id |
| Converter.AssignIdDistinctValues | table_converter/core/convert.py:259-265 | in a valid table, two rows of one bucket whose primary values Python finds unequal get different ids |
| Converter.ParseEntry | table_converter/core/convert.py:289-332 | an entry without `=` is a pick of itself or raises ValueError; with `=` it parses only when it splits into exactly two names |
| Converter.ParseEntryJoin | table_converter/core/convert.py:291-292 | parsing takes apart exactly the entry that joining two `=`-free names with `=` builds |
| Converter.ParseEntrySplits | table_converter/core/convert.py:291-292 | an entry with `=` that parses is its two names joined by its only `=` |
| Converter.AddPairs | table_converter/core/convert.py:288-295 | the comma loop of one argument computes `Added`: an empty argument adds nothing |
| Converter.PairsIntoFails | table_converter/core/convert.py:290-295 | the entry loop raises exactly when one of its entries does not parse |
| Converter.PairsIntoKeepsKeys | table_converter/core/convert.py:293 | keys already configured stay configured |
| Converter.PairsIntoDestinations | table_converter/core/convert.py:290-293 | after a loop that does not raise, every entry parsed and its destination is a key |
| Converter.PairsIntoValues | table_converter/core/convert.py:293 | every stored entry was there before or holds the converted source of a parsed entry |
| Converter.SetupConvertArgs | table_converter/core/convert.py:288-332 | the five argument loops compute `ParseConvertArgs`, in source order, stopping at the first ValueError |
| Converter.AddedIdsHaveNoContext | table_converter/core/convert.py:320-332 | id assignments from the command line have an empty context, so buckets are chosen by the primary column alone |
| Converter.Prepare | table_converter/core/convert.py:357-366 | the method runs snapshot, file name, constants, first pick and newline splits as `PrepareRow` describes, stopping at the first error |
| Converter.ConvertRow | table_converter/core/convert.py:356-375 | without debug output, a converted row has no `__debug__` entry |
| Converter.ProcessRow | table_converter/core/convert.py:356-375 | the method computes `ConvertRow` and updates the shared id table in place, keeping it valid |
| Converter.ConvertRowPicked | table_converter/core/convert.py:371-374 | with a pick list and without debug output, every output key is the head of a picked target |
| Converter.ConvertRowsShape | table_converter/core/convert.py:355-375 | the row loop appends exactly one converted row per input row, after the earlier ones |
| Converter.ConvertRowsNoDebug | table_converter/core/convert.py:373-375 | without debug output, no converted row of a file keeps `__debug__` |
| Converter.ConvertFile | table_converter/core/convert.py:355-375 | the row loop computes `ConvertRowsFrom` with the shared table, keeping it valid |
| Converter.ConvertTables | table_converter/core/convert.py:270-378 | `convert` computes `Convert`: argument errors first, every file in turn with one id table, IndexError at a file without rows (its first row is logged at line 354 before the row loop), and ValueError when there is nothing to concatenate |
| Converter.ConvertFilesFromShape | table_converter/core/convert.py:340-378 | the file loop yields one row per input row, in input order, and no `__debug__` without debug output |
| Converter.ConvertShape | table_converter/core/convert.py:270-378 | a successful `convert` had input files, each with at least one row, yields one row per input row, and no row keeps `__debug__` unless debugging |
| Converter.ConvertFilesFromEmptyFile | table_converter/core/convert.py:340-354 | a file without rows makes the file loop fail: `df.iloc[0]` raises IndexError there unless an earlier file raised first |
| Converter.FilesFromEmptyHead | table_converter/core/convert.py:348-354 | a first file without rows raises IndexError |
| Converter.ConvertFilesFromNonEmpty | table_converter/core/convert.py:340-376 | a file loop that succeeds read at least one row from every file |
| Converter.EmptyFirstFileRaises | table_converter/core/convert.py:270-354 | once the arguments parse, a header-only first file makes `convert` raise IndexError |
| IdMaps.EmptyValid | table_converter/core/convert.py:208-214 | a new `IdMap` with `max_id = 0` is valid |
| IdMaps.Obtain | table_converter/core/convert.py:259-265 | a known value keeps its id and changes nothing; a new value gets `max_id + 1`, which becomes the new maximum and is recorded in both directions |
| IdMaps.ObtainValid | table_converter/core/convert.py:259-265 | allocation keeps the map valid, and a newly allocated id was not in use before |
| IdMaps.ObtainAgain | table_converter/core/convert.py:264-265 | asking again for a value gives the same id and changes nothing |
| IdMaps.ObtainDistinct | table_converter/core/convert.py:259-265 | two values asked for one after the other get the same id exactly when they are equal |
| IdMaps.ValidInjective | table_converter/core/convert.py:211-214 | in a valid map no two values share an id |
| IdMaps.SetId | table_processor/core/functions/assign_id.py:109-114 | a taken id raises ValueError; otherwise both directions are recorded and `max_id` becomes the larger of the old `max_id` and the id |
| IdMaps.SetIdValid | table_processor/core/functions/assign_id.py:109-114 | recording an unused id keeps the map valid |
| IdMaps.BucketOfValid | table_converter/core/convert.py:225-226 | the bucket that `defaultdict(IdMap)` supplies is valid, a new one included |
| IdMaps.UpdateValid | table_converter/core/convert.py:258 | replacing one bucket of a valid table by a valid map keeps the table valid |
| IdMaps.IdContextMap.constructor | table_converter/core/convert.py:225-226 | `create_id_context_map()` has no buckets |
| IdMaps.IdContextMap.GetId | table_converter/core/convert.py:258-265 | looking up in bucket `b` creates it when new and does what `Obtain` describes, keeping every bucket valid |
| IdMaps.IdContextMap.Touch | table_processor/core/functions/assign_id.py:83 | indexing the table on its own creates bucket `b` if it is new and changes nothing else |
| IdMaps.IdContextMap.SetIdIn | table_processor/core/functions/assign_id.py:109-114 | the bucket is created even when the id is taken, then `SetId` applies |
| IdAssign.SearchAll | table_processor/core/functions/assign_id.py:48-62 | one found value per column, in order; otherwise KeyError for a column that is not found |
| IdAssign.KeyValue | table_processor/core/functions/assign_id.py:38-69 | no primary column raises ValueError; context columns are searched before primary ones; the triple holds the columns given and the values found, in the form the id dictionaries compare them |
| IdAssign.GetKeyValue | table_processor/core/functions/assign_id.py:38-69 | the method with its two search loops computes `KeyValue` |
| IdAssign.SearchColumns | table_processor/core/functions/assign_id.py:57-62 | one search loop computes `SearchAll` |
| IdAssign.ObtainIn | table_processor/core/functions/assign_id.py:83-92 | an unhashable bucket raises TypeError before the bucket is created, an unhashable value after; otherwise `Obtain` in that bucket |
| IdAssign.GetIdAsWritten | table_processor/core/functions/assign_id.py:71-93 | `get_id` as written, with the swapped unpacking on line 77, updates the table as `IdOfAsWritten` describes |
| IdAssign.GetId | table_processor/core/functions/assign_id.py:71-93 | `get_id` as intended updates the table as `IdOf` describes and keeps it valid |
| IdAssign.RecordIn | table_processor/core/functions/assign_id.py:109-114 | a taken id raises ValueError; a recording that passes stores `SetId` in the bucket |
| IdAssign.SetIdAsWritten | table_processor/core/functions/assign_id.py:96-115 | `set_id` as written, with the same swapped unpacking on line 103 |
| IdAssign.SetId | table_processor/core/functions/assign_id.py:96-115 | `set_id` as intended, keeping the table valid |
| IdAssign.RecordIdValid | table_processor/core/functions/assign_id.py:109-114 | recording an id keeps every bucket valid |
| IdAssign.AssignId | table_processor/core/functions/assign_id.py:118-130 | the row gets, at `staging.<target>`, the id of its key; the table is updated in place and stays valid |
| IdAssign.IdOfAgain | table_processor/core/functions/assign_id.py:90-92 | a key seen before gets its id again, flagged as existing, and the table does not change |
| IdAssign.IdOfNew | table_processor/core/functions/assign_id.py:84-89 | an unseen key gets the bucket's largest id plus one, which both directions record |
| IdAssign.IdOfDistinct | table_processor/core/functions/assign_id.py:83-92 | rows of one context whose primary values Python finds unequal get different ids |
| IdAssign.TrueIsOne | table_processor/core/functions/assign_id.py:83-92 | in one context, a row whose primary value is `True` after a row whose primary value is `1` gets id 1 again, flagged as existing |
| IdAssign.AsWrittenFirstIdIsOne | table_processor/core/functions/assign_id.py:77-89 | as written, every row whose primary values are new gets id 1, whatever its context |
| IdAssign.FirstIdsInContext | table_processor/core/functions/assign_id.py:83-89 | as intended, the first two rows of a new context with different primary values get ids 1 and 2 |
| IdAssign.SwappedKeysCollide | table_processor/core/functions/assign_id.py:77-89 | two rows with equal context and different primary values both get id 1 as written, and 1 and 2 as intended |
| IdAssign.AsWrittenContextsInBucket | table_processor/core/functions/assign_id.py:77-89 | as written, in a new primary bucket a repeated row keeps id 1, flagged as existing, and a row of another context gets id 2 |
| IdAssign.AsWrittenNewContext | table_processor/core/functions/assign_id.py:77-89 | as written, rows x/k1, x/k1 and y/k1 get ids 1, 1 and 2 |
| IdAssign.ObtainPresent | table_processor/core/functions/assign_id.py:83-92 | a value already in its bucket gets its id back, flagged as existing, with the table unchanged |
| Actions.ParseOption | table_converter/core/actions.py:54-59 | `key=value` gives its stripped sides; a bare key is True; more than one `=` raises ValueError |
| Actions.ParseField | table_converter/core/actions.py:60-68 | `target=source` gives its stripped sides; a bare name is both; more than one `=` raises ValueError |
| Actions.ParseFieldJoin | table_converter/core/actions.py:56-57 | a field or option built by joining two `=`-free texts with `=` parses back to their stripped forms |
| Actions.Coerce | table_converter/core/actions.py:70-82 | the `type` option's only exceptions are ValueErrors: an unparseable integer, a float, or an unknown type |
| Actions.CoerceInt | table_converter/core/actions.py:73-74 | `int` and `integer` read back the decimal text of every integer |
| Actions.CoerceText | table_converter/core/actions.py:70-78 | `bool` is true exactly for a non-empty text, the text `false` included; `str` keeps the text |
| Actions.FieldAction | table_converter/core/actions.py:69-98 | a field of a known action builds its config, and an error is a ValueError other than the arity error |
| Actions.UnknownActionRaises | table_converter/core/actions.py:96-98 | any field of an unknown action raises |
| Actions.Collect | table_converter/core/actions.py:61-98 | configs are appended in order; the first exception stops the loop and keeps what was appended before |
| Actions.FieldsInto | table_converter/core/actions.py:60-98 | the field loop appends one config per field after the earlier ones, or stops at the first field that raises |
| Actions.FieldsIntoOnePerField | table_converter/core/actions.py:60-95 | a parsed action holds, at each position, the config its field builds |
| Actions.CollectAt | table_converter/core/actions.py:83-94 | the config at position `j` after the earlier ones is the one built at `j` |
| Actions.SetupOptions | table_converter/core/actions.py:52-59 | the option loop computes `ParseOptions`; a later option overwrites an earlier one with the same key |
| Actions.SetupFields | table_converter/core/actions.py:60-98 | the field loop of one action computes `FieldsInto` |
| Actions.SetupActionsWithArgs | table_converter/core/actions.py:35-99 | the method computes `ParseActions`, every action string in turn, keeping what was appended before an exception |
| Actions.ParseActionArity | table_converter/core/actions.py:41-45 | only a text without 2 or 3 colon-separated parts raises the arity error, and then nothing is appended |
| Actions.UnknownActionAppendsNothing | table_converter/core/actions.py:96-98 | an action that is neither `assign-constant` nor `split` raises ValueError and appends nothing |
| Actions.CollectFirstErr | table_converter/core/actions.py:61-98 | a first field that raises stops the loop with nothing appended |
| Actions.WriteRowOrder | table_converter/core/actions.py:149-156 | `set_row_value` ends in one of three ways: the depth guard raises with the nested view untouched; a TypeError leaves the flat view written; or both views are written |
| Actions.SetRowValue | table_converter/core/actions.py:149-156 | the method changes the row as `WriteRow` describes |
| Actions.SetRowStagingValue | table_converter/core/actions.py:158-164 | the method writes at `staging.<target>` as `WriteRow` describes |
| Actions.WriteRowReadsBack | table_converter/core/actions.py:149-156 | a write that passes reads back through the nested view, and a scalar or list through the flat view too |
| Actions.PopRowValue | table_converter/core/actions.py:187-193 | the method deletes the flat keys under `key` and then pops the nested value, as `PopRow` describes |
| Actions.PopRowStaging | table_converter/core/actions.py:195-199 | the method pops the staging area as `PopRow` describes |
| Actions.PopRowClears | table_converter/core/actions.py:187-193 | after a pop no flat key lies under `key`, the dotted path holds nothing, and the value returned is the one that was there or the default |
| Actions.SplitValue | table_converter/core/actions.py:213-217 | a found value that is not text is written as it is |
| Actions.SplitValueTokens | table_converter/core/actions.py:215-216 | every piece is a non-empty text; on blanks they are the words of the text; on a delimiter they hold no delimiter and spell the text between its occurrences |
| Actions.SplitOnBlanks | table_converter/core/actions.py:215-216 | without a delimiter the pieces are the non-empty words, and they spell the non-blank characters |
| Actions.SplitOnDelimiter | table_converter/core/actions.py:215-216 | with a delimiter the pieces are the non-empty parts of `split`, none holds the delimiter, and joining the parts back gives the text |
| Actions.ConcatDropEmpty | table_converter/core/actions.py:216 | dropping empty pieces does not change what they spell |
| Actions.AssignConstant | table_converter/core/actions.py:201-206 | the method writes the constant at `staging.<target>` as `ApplyConstant` describes |
| Actions.ApplyConstantStores | table_converter/core/actions.py:201-206 | a constant that is written reads back at `staging.<target>` in both views |
| Actions.SplitField | table_converter/core/actions.py:208-219 | the method changes the row as `ApplySplit` describes |
| Actions.ApplySplitCases | table_converter/core/actions.py:212-218 | a source that is not found leaves the row as it was; a found non-text is written unchanged |
| Actions.DoAction | table_converter/core/actions.py:109-119 | one action dispatched by its kind |
| Actions.DoActions | table_converter/core/actions.py:101-107 | the method runs the actions in order, stopping at the first exception, as `ApplyAll` describes |
| Actions.ApplyAllAppend | table_converter/core/actions.py:105-106 | running two lists of actions one after the other is running their concatenation |
| Actions.NestRowDotFree | table_converter/core/actions.py:126 | a flat row without dotted keys is its own nested view |
| Actions.PrepareRowDotFree | table_converter/core/actions.py:121-130 | without a flat row the prepared row is empty; a dot-free flat row is also its nested view |
| Actions.IdentityPicks | table_converter/core/actions.py:227-231 | one pick per input key, copying the key onto itself |
| Actions.DefaultPicks | table_converter/core/actions.py:226-231 | the loop builds `IdentityPicks` from the input keys |
| Actions.PickColumns | table_converter/core/actions.py:232-238 | the pick loop computes `PickInto` |
| Actions.CopyColumns | table_converter/core/actions.py:239-248 | the copy loop computes `CopyRest` |
| Actions.RemapColumns | table_converter/core/actions.py:221-251 | the method changes the row as `Remap` describes: nothing until the new flat view is complete, then the new flat view and its nesting |
| Actions.PickIntoLeaves | table_converter/core/actions.py:234-237 | when no pick trips the depth guard, the picked part is every found pick's leaves, written in order |
| Actions.CopyRestStaging | table_converter/core/actions.py:239-248 | a flat key the copy loop adds that was not there before lies in the staging area |
| Actions.CopyRestKeepsOutside | table_converter/core/actions.py:245-248 | the copy loop never changes a flat key outside the staging area |
| Actions.CopyRestCovers | table_converter/core/actions.py:239-248 | every old flat key survives the copy loop, as itself or moved under the staging area, and picked keys are kept |
| AssignAction.Assign | tabpro/core/actions/assign.py:22-38 | the method changes the row as `ApplyAssign` describes |
| AssignAction.AssignRequired | tabpro/core/actions/assign.py:27-32 | the required check raises exactly when a required column is missing or falsy, and then nothing is written |
| AssignAction.AssignStores | tabpro/core/actions/assign.py:33-37 | a written value can be searched again under its target: the found value, or the default when missing |
| AssignAction.AssignMissingNoDefault | tabpro/core/actions/assign.py:33-38 | a missing column without a default leaves the row unchanged, unless it is required |
| AssignAction.DefaultOf | tabpro/core/actions/assign.py:48-52 | a `default=` text is the default, except None, none, Null and null, which stand for None |
| AssignAction.SetupAssignAction | tabpro/core/actions/assign.py:40-60 | exactly one config is appended, carrying the target, the source, a default exactly when `default` is given, and `required` exactly when the option is truthy |
| AssignAction.RequiredFalseIsTrue | tabpro/core/actions/assign.py:53 | any non-empty `required=` text turns the demand on, the text `false` included |
| TabproConvert.Searches | tabpro/core/convert.py:66-67 | one search result per item, in order |
| TabproConvert.ArrayOf | tabpro/core/convert.py:65-71 | an array has between one entry per required item and one entry per item |
| TabproConvert.AssignArray | tabpro/core/convert.py:58-73 | the two loops build, on a copy, the row `ArraysOver` describes |
| TabproConvert.BuildArray | tabpro/core/convert.py:65-71 | the inner loop builds `ArrayOf` |
| TabproConvert.AssembleSnoc | tabpro/core/convert.py:66-71 | one more item adds its piece at the end |
| TabproConvert.AssembleRequired | tabpro/core/convert.py:68-71 | with no optional item, the array has one entry per item: the value found, or None |
| TabproConvert.ArrayOfRequiredItems | tabpro/core/convert.py:65-71 | with no optional item, each entry is what its column's search found, or None |
| TabproConvert.ArrayOfOptionalItems | tabpro/core/convert.py:68-71 | with only optional items, each entry is a value found for some item, never None |
| TabproConvert.ArraysOverStores | tabpro/core/convert.py:64-72 | each configured key holds its array under the staging area |
| TabproConvert.ArraysOverFrame | tabpro/core/convert.py:62-72 | every other key of the row keeps its value |
| TabproConvert.ArraysOverKeepsFlat | tabpro/core/convert.py:58-73 | the copy stays a flat row |
| TabproConvert.StampRow | tabpro/core/convert.py:146-150 | the four bookkeeping writes, each `row[key] = value`, stop at the first exception |
| TabproConvert.StampWrites | tabpro/core/convert.py:146-150 | after a stamp that passes, the row holds its file, its `file:index` token, its index and the input snapshot |
| TabproConvert.StampKeepsFlat | tabpro/core/convert.py:146-150 | the stamp keeps the flat view flat |
| TabproConvert.AssignFrame | tabpro/core/classes/row.py:38-40 | a write that passes stores its value at its key and leaves the paths that part from it alone |
| TabproConvert.RemapKeepsFlat | tabpro/core/convert.py:171-172 | picking keeps the flat view flat |
| TabproConvert.ProcessRow | tabpro/core/convert.py:139-175 | a row is skipped exactly when its full path token or its base-name token is in the ignore set |
| TabproConvert.Finish | tabpro/core/convert.py:153-175 | a row that reaches the pipeline is never skipped: it is dropped, written or raises |
| TabproConvert.PrepareRow | tabpro/core/convert.py:145-152 | the clone, the stamp and the arrays on the row itself, stopping at the first error, keep the flat view flat |
| TabproConvert.StampUnlessStaged | tabpro/core/convert.py:146-150 | the stamp is skipped when the row already has a staging area |
| TabproConvert.FinishRow | tabpro/core/convert.py:153-175 | the method computes `Finish` on the row |
| TabproConvert.HandleRow | tabpro/core/convert.py:139-175 | the method computes `ProcessRow` on the row |
| TabproConvert.StrippedHasNoStaging | tabpro/core/convert.py:173-174 | a stripped row has no staging entries left in either view |
| TabproConvert.FinishStripped | tabpro/core/convert.py:156-174 | without debug output, what is written or dropped after the pipeline has no staging area |
| TabproConvert.VerdictStripped | tabpro/core/convert.py:139-175 | without debug output, rows the writer receives, and dropped rows, carry no staging area |
| TabproConvert.Verdicts | tabpro/core/convert.py:138 | the verdicts of a file's rows, numbered from 0 |
| TabproConvert.Convert | tabpro/core/convert.py:132-175 | the file and row loops compute `ConvertRun`: the writer's rows, the filtered-out rows and the exception that ended the run |
| TabproConvert.ConvertFile | tabpro/core/convert.py:138-175 | the row loop over one file adds to the rows gathered so far as `Fold` describes |
| TabproConvert.Absorb | tabpro/core/convert.py:154-175 | one verdict taken into the output; an exception ends the run |
| TabproConvert.FoldStops | tabpro/core/convert.py:165-170 | once a run has raised, later rows add nothing |
| TabproConvert.FoldSplit | tabpro/core/convert.py:165-170 | a run that raises part way ends where it raised |
| TabproConvert.ConvertRunStops | tabpro/core/convert.py:132-175 | an exception in an earlier file ends the whole run |
| TabproConvert.FoldExtends | tabpro/core/convert.py:161-175 | a run only ever adds to the writer's rows and to the filtered-out rows |
| TabproConvert.ConvertRunPrefix | tabpro/core/convert.py:132-175 | the rows pushed for the first files come first, in input order |
| TabproConvert.FoldAllSkipped | tabpro/core/convert.py:140-144 | skipped rows add nothing |
| TabproConvert.ConvertRunAllIgnored | tabpro/core/convert.py:139-144 | when every row is in the ignore set, nothing is pushed, collected or raised |
| TabproConvert.FoldNoCollect | tabpro/core/convert.py:161-162 | without a filtered-out output no dropped row is collected |
| TabproConvert.ConvertRunNoCollect | tabpro/core/convert.py:161-162 | without a filtered-out output the collected list stays empty |
| TabproConvert.FoldStripped | tabpro/core/convert.py:173-175 | runs built from stripped verdicts push only stripped rows |
| TabproConvert.ConvertRunStripped | tabpro/core/convert.py:132-175 | without debug output, no row the writer receives has staging entries in either view |

## Left out

- File loading and writing are I/O and are left out: loaders, `get_writer`, savers, `pd.DataFrame`, `pd.concat` and the file-extension checks (table_converter/core/convert.py:333-337, 344-348). Each input file is its name with its loaded rows, and the output is a sequence of rows.
- `os.path.exists` and its FileNotFoundError: an environment check, left out.
- `ic`, `logger` and `verbose`: logging only, with one exception. At table_converter/core/convert.py:354, `ic(df.iloc[0])` evaluates `df.iloc[0]` first, so a file without rows raises IndexError. The model keeps that (`Converter.ConvertFilesFrom`). Lines 380-382 log the concatenated table; by then every file had a row, so it has rows too.
- The NaN-to-None replacement (table_converter/core/convert.py:350): a pandas detail. Loaded rows hold `Values.Null` already.
- `setup_config` reads a configuration file. The initial configuration is a parameter.
- `map_formats` (table_converter/core/convert.py:147-170): Python `str.format` templates with KeyError retries are not modelled. `--assign-formats` entries are still parsed and stored like the other arguments.
- `float(source)` in assign-constant (table_converter/core/actions.py:75-76): floating point is not modelled. The model raises ValueError(NoFloats) there.
- tabpro `do_actions`, its action classes and `GlobalStatus` are not part of this model. The tabpro pipeline is a parameter: a function from a row to a row and a keep flag. The lemmas about `convert` assume only that the pipeline keeps the flat view flat (`KeepsFlat`).
- tabpro `setup_pick_with_args` and `setup_actions_with_args` are not part of this model. tabpro `convert` receives its picks and pipeline already built.
- Helpers that are not part of this model are modelled after their visible counterparts:
  - `get_nested_field_value` is `Lookup.Resolve`, which reads lists by decimal index;
  - tabpro's `set_flat_field_value` is the one at table_converter/core/actions.py:132-147;
  - `nest_row` writes each flat entry in order with `set_nested_field_value`;
  - `functions.search_column_value` of the later versions is `Lookup.Search`: three tiers read by whole dotted path, and no write-back;
  - tabpro's `row.search` and `row.staging[...]` (tabpro/core/actions/assign.py:26,34,37) are `Lookup.Search` on the nested view and a write at `__staging__.<target>`;
  - tabpro's `remap_columns`, `pop_row_staging` and `prepare_row` (tabpro/core/convert.py:38-44) are the table_converter versions, `Actions.Remap` and `Actions.PopRow`.
- Aliasing is not modelled, because nested dictionaries are values:
  - an in-place update of an inner dictionary produces a new outer value;
  - a dictionary stored in two places (`row[INPUT_FIELD] = orig_row.nested`) becomes two copies.
- table_converter's action `Row` dataclass (table_converter/core/actions.py:30-33) is modelled by the same `Rows.Row` class as tabpro's `Row`; `Rows.Row.Of` builds it from its two views.
- Hashing is reduced to two rules: lists and dictionaries are unhashable (`Converter.Hashable`), and `True` and `False` are the keys `1` and `0` (`Converter.HashKey`). Floats are not modelled, so `1.0 == 1` does not arise.
- Converter.KeyOf: the found values are kept in their key form, so a bucket's `dict_id_to_value` holds `1` where Python keeps the first value seen, which may be `True`.
- IdAssign.KeyValue: the same key form, with the same effect on `dict_id_to_value`.
- Converter.ApplyFieldsSplitByNewline: only the shared `__debug__` is modelled. `OrderedDict(row)` shares every nested dictionary with the row, so a raw-tier write-back that changes a nested value (when a literal dotted key shadows the path) would show in the copy too; the model writes it to the searched row only.
- Strings.ParseInt: accepts only the ASCII digits `0`-`9`. Python's `int()` also accepts the other Unicode decimal digits (category Nd), such as `'٣'`; the Unicode character database is not part of this model.
- TabproConvert.Convert: an output file is assumed to be given, and the writer is the output sequence. In the source, `writer` is bound only when `output_file` is truthy (tabpro/core/convert.py:128-129). Without one, `writer.push_row(row)` at line 174, or `if writer:` at line 176 when no row reaches it, raises UnboundLocalError.
- TabproConvert.ConvertRun: the filtered-out rows are the collected sequence. Saving them at tabpro/core/convert.py:183 calls the writer object itself with a data frame; that save is file I/O and is not modelled.
- Actions.Coerce: `int` and `integer` therefore reject texts of non-ASCII decimal digits that Python reads as numbers.
- Error messages are not modelled; only the exception class and a reason tag are.
- FieldOps.DeleteFlatRowValue: requires distinct flat keys, which every Python dictionary has.
- Actions.PopRowValue: requires distinct flat keys, for the same reason.
- Actions.PopRowStaging: requires distinct flat keys, for the same reason.

## Findings

| source | as written | input that shows it | evidently intended | confidence | as-written member | corrected member |
|---|---|---|---|---|---|---|
| table_processor/core/functions/assign_id.py:77,103 | `primary_value, context_key = get_key_value(...)` unpacks `(context_key, primary_value)` in swapped order. The bucket is then chosen by the primary values, and the key triple is numbered inside it. | Context column `c` and primary column `p`. Rows `{c: x, p: k1}` then `{c: x, p: k2}`: both rows get id 1. | Rows of one context are numbered in one bucket, so they get ids 1 and 2 | not executed | IdAssign.SwappedKeysCollide | IdAssign.FirstIdsInContext |

The as-written numbering is `IdAssign.IdOfAsWritten`, with `IdAssign.AsWrittenFirstIdIsOne` showing that every new primary tuple gets id 1, and `IdAssign.AsWrittenNewContext` showing that rows x/k1, x/k1, y/k1 get 1, 1, 2. The corrected numbering, `IdAssign.IdOf`, is what `IdAssign.AssignId` uses; `IdAssign.IdOfDistinct` proves that it gives different primary values in one context different ids.

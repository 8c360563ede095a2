# pyarrow-pandas flattener, modelled in Dafny

This project models the flattening engine of `pyarrow_pandas`. That engine is the
`PyArrowTableFlattener` class. It holds one optional Arrow table. It rewrites every nested column of
that table (a struct, list or map column) into flat columns, either in one pass or until no nested
column is left. The project also models two helpers from the same file. The first is `map_to_dict`,
which turns each map cell into a dict. The second is the dtype lookup that `to_pandas_safe` hands to
the dataframe conversion.

Modules:

- `Wrappers`: `Option` and `Result`.
- `Seqs`: concatenation of per-row sequences (`ConcatMap`) and its index laws.
- `Folds`: a loop over iterations 0 .. n-1 as a function: a run that threads a state through a
  step that may fail, and the concatenation of per-iteration outputs, with the laws that relate them.
- `OrderedDict`: a Python dict as a sequence of key/value pairs. An assignment keeps a key's first
  position and takes the last value written; `update` and `dict(zip(...))` are sequences of such
  assignments.
- `Arrow`: the part of the table library the engine uses:
  - types, cell values, chunked arrays and tables;
  - `Table.column(name)`, `ChunkedArray.flatten()` on a struct, `pc.list_flatten`,
    `Table.flatten()` and `pa.table(dict)`.
- `Flattening`: the engine as functions:
  - one pass (`Pass`, built field by field by `BuildArraysDict`);
  - an independent flat reference for a pass (`Writes`);
  - the loops of `flatten_all_columns` (`FlattenAll`) and `flatten_struct_columns` (`FlattenStructs`);
  - the laws proved about them.
- `Flattener`: the class `TableFlattener` with its mutable `table` field. Each method is proved
  equal to its specification function in `Flattening`.
- `SafeConvert`: the dtype lookup and `map_to_dict`.
- `SanityTests`: the scenarios of the repository's tests, over cells given as parameters.

Cell contents are opaque: a scalar is an integer token and a string is a token too. The engine never
looks inside a scalar, so equality of tokens is all the model needs.

Two behaviours of the code shape the model:

- The loop of `flatten_all_columns` does not always end. Each pass of `flatten_struct_columns`
  strictly lowers the struct depth (`Flattening.TableFlattenInvariant`), and each pass of
  `flatten_all_columns` without `keep_nested_columns` strictly lowers the nesting depth
  (`Flattening.PassInvariant`), so those loops end. With
  `recursive` and `keep_nested_columns` both set, a kept struct or map column stays in the table,
  and the loop can run forever: `Flattening.KeepAndRecursiveNeverSettles` exhibits a table with a
  struct column that a pass maps to itself. It does not always run forever. A kept list column is
  overwritten under its own name by its flattening (`Flattening.ListFieldWrittenLast`), so a table
  whose only nested column is a list of scalars settles after one pass
  (`SanityTests.KeptListSettles`), and a pass that fails ends the loop with its error.
- A list flatten keeps null elements: `pc.list_flatten` skips only null lists, so `[[1], [null],
  [5]]` flattens to three elements with a null in the middle (`Arrow.ListFlattenKeepsNullElements`).

## Model

| member | source | states |
|---|---|---|
| Flattener.TableFlattener.constructor | pyarrow_pandas/pyarrow_pandas_converter.py:31-38 | the flattener holds exactly the table it was given, or none |
| Flattener.TableFlattener.SetTable | pyarrow_pandas/pyarrow_pandas_converter.py:40-47 | the given table replaces the held one |
| Flattener.TableFlattener.ValidateTableSet | pyarrow_pandas/pyarrow_pandas_converter.py:98-107 | fails with the "no table set" error exactly when no table is held; otherwise returns the held table |
| Flattener.TableFlattener.FlattenAllColumns | pyarrow_pandas/pyarrow_pandas_converter.py:49-74 | with no table, fails and changes nothing; otherwise the held table and the result are those of `FlattenAll` (loop while nested, one pass unless recursive, a failed pass leaves the previous table held) |
| Flattener.TableFlattener.FlattenStructColumns | pyarrow_pandas/pyarrow_pandas_converter.py:76-94 | with no table, fails and changes nothing; otherwise holds and returns `FlattenStructs` of the old table |
| Flattener.TableFlattener.FlattenNestedColumns | pyarrow_pandas/pyarrow_pandas_converter.py:127-146 | returns exactly one `Pass` over the held table: the arrays dict, then the table built from it |
| Flattener.TableFlattener.BuildFieldStep | pyarrow_pandas/pyarrow_pandas_converter.py:162-170 | one iteration of the loop computes `FieldStep`: the copy (skipped for a dropped nested field), then the merge of the struct, list or map expansion; a failed lookup fails the iteration |
| Flattener.TableFlattener.BuildFlattenedArraysDict | pyarrow_pandas/pyarrow_pandas_converter.py:148-171 | the loop over the schema computes `BuildArraysDict` of all fields, including the first failed column lookup |
| Flattener.TableFlattener.FlattenMapFieldEntries | pyarrow_pandas/pyarrow_pandas_converter.py:203-233 | the two nested loops collect every entry of every non-null row, row after row, into the keys and values arrays of `FlattenMapField` |
| Flattening.HasNestedColumns | pyarrow_pandas/pyarrow_pandas_converter.py:118-125 | some column has a struct, list, map or other nested type; `HasNestedIffDeep` ties it to the table depth |
| Flattening.HasStructColumns | pyarrow_pandas/pyarrow_pandas_converter.py:109-116 | some column has a struct type; `HasStructIffStructDeep` ties it to the struct depth |
| Flattening.GenerateSubfieldNames | pyarrow_pandas/pyarrow_pandas_converter.py:236-251 | the struct's subfield names in order, each prefixed by the parent name and a dot with composite names; `SubfieldNaming` states its properties |
| Flattening.FlattenStructField | pyarrow_pandas/pyarrow_pandas_converter.py:173-188 | looks the field's column up by name and pairs each subfield name with the matching child array; a failed lookup is the error |
| Flattening.FlattenListField | pyarrow_pandas/pyarrow_pandas_converter.py:190-201 | looks the field's column up by name and writes its list flatten under the field's own name; a failed lookup is the error |
| Flattening.FlattenMapField | pyarrow_pandas/pyarrow_pandas_converter.py:203-233 | looks the field's column up by name and writes its keys and values arrays under the two map names; a failed lookup is the error |
| Flattening.Pass | pyarrow_pandas/pyarrow_pandas_converter.py:127-146 | one pass: the arrays dict of all fields, then the table built from it; the first failure of either is the error; `PassInvariant` and `PassAssembly` state its properties |
| Flattening.HasNestedIffDeep | pyarrow_pandas/pyarrow_pandas_converter.py:118-125 | the table has a nested column iff its maximum type depth is positive; the maximum bounds every column |
| Flattening.HasStructIffStructDeep | pyarrow_pandas/pyarrow_pandas_converter.py:109-116 | the table has a struct column iff its maximum struct depth is positive |
| Flattening.SubfieldNaming | pyarrow_pandas/pyarrow_pandas_converter.py:235-251 | one name per subfield, in subfield order: `parent.sub` with composite names, `sub` without; distinct subfield names give distinct names |
| Flattening.SubfieldNamingExample | pyarrow_pandas/tests/test_sanity.py:40-41 | a `person` struct of `name` and `age` gives `person.name`, `person.age` (or `name`, `age`) |
| Arrow.StructChildren | pyarrow_pandas/pyarrow_pandas_converter.py:187 | one child array per subfield of the struct |
| Arrow.StructDecomposition | pyarrow_pandas/pyarrow_pandas_converter.py:186-188 | each child of a struct column has the subfield's type and the column's length; a null row is null in every child; a non-null row is the record of the children's values at that row |
| Arrow.ListFlatten | pyarrow_pandas/pyarrow_pandas_converter.py:200 | the flattened column has the list's element type; `ListFlattenLength` and `ListFlattenOrder` give its contents |
| Arrow.ListFlattenLength | pyarrow_pandas/pyarrow_pandas_converter.py:200-201 | the flattened list column is as long as the sum of the row lengths, null rows counting zero |
| Arrow.ListFlattenOrder | pyarrow_pandas/pyarrow_pandas_converter.py:200-201 | element `j` of row `r` sits at the offset of all earlier rows plus `j` (row-major, then within-row order) |
| Arrow.ListFlattenTyped | pyarrow_pandas/pyarrow_pandas_converter.py:200-201 | every flattened element has the list's element type |
| Arrow.ListFlattenKeepsNullElements | pyarrow_pandas/tests/test_sanity.py:85-98 | `[[1], [null], [5]]` flattens to three elements with a null in the middle |
| Flattening.MapFlattenLength | pyarrow_pandas/pyarrow_pandas_converter.py:216-225 | the keys and values arrays are equally long, as long as the total entry count, null rows counting zero |
| Flattening.MapFlattenOrder | pyarrow_pandas/pyarrow_pandas_converter.py:221-225 | entry `j` of row `r` gives the key and the value at the offset of all earlier entries plus `j` |
| Flattening.MapFlattenNullRow | pyarrow_pandas/pyarrow_pandas_converter.py:222 | removing a null row changes neither array: a null map contributes no entries |
| Flattening.MapNaming | pyarrow_pandas/pyarrow_pandas_converter.py:227-229 | the two columns are `parent.keys`/`parent.values` with composite names, `keys`/`values` without |
| Flattening.MapArraysTyped | pyarrow_pandas/pyarrow_pandas_converter.py:231 | every key has the map's key type and every value its item type |
| Flattening.BuildArraysDictFailure | pyarrow_pandas/pyarrow_pandas_converter.py:161-171 | once a field fails, the later fields do not change the failure |
| Flattening.CopyFieldWrites | pyarrow_pandas/pyarrow_pandas_converter.py:163-164 | the copy step is the update of the dict with the flat writes of that step |
| Flattening.ExpansionIsWrites | pyarrow_pandas/pyarrow_pandas_converter.py:165-170 | the struct, list or map expansion fails exactly when its flat writes do, and otherwise updates the dict as they do |
| Flattening.FieldStepWrites | pyarrow_pandas/pyarrow_pandas_converter.py:162-170 | one field's step on `dict(ws)` equals `dict` of `ws` followed by that field's writes |
| Flattening.BuildArraysDictWrites | pyarrow_pandas/pyarrow_pandas_converter.py:161-171 | the stateful dict-building loop equals `dict` of the flat list of all writes, field after field |
| Flattening.PassAssembly | pyarrow_pandas/pyarrow_pandas_converter.py:141-144 | the pass's columns are the written names in first-write order, each holding the array written last under its name |
| Flattening.ListFieldWrittenLast | pyarrow_pandas/pyarrow_pandas_converter.py:163-168 | a list field's name ends up holding the flattened list; with `keep` the copy is overwritten under the same name |
| Flattening.FlatFieldCopied | pyarrow_pandas/pyarrow_pandas_converter.py:163-164 | a non-nested field writes only itself, under its own name |
| Flattening.NestedFieldDropped | pyarrow_pandas/pyarrow_pandas_converter.py:163-170 | without `keep`, a nested field's own array is never written; a nested type other than struct, list or map writes nothing |
| Flattening.FieldWritesShape | pyarrow_pandas/pyarrow_pandas_converter.py:162-170 | every array a field writes is typed and is either the field itself or strictly shallower; without `keep`, strictly shallower for a nested field |
| Flattening.WritesShape | pyarrow_pandas/pyarrow_pandas_converter.py:161-171 | every array written by the pass is typed and no deeper than the table; without `keep`, strictly shallower when the table is nested |
| Flattening.PassInvariant | pyarrow_pandas/pyarrow_pandas_converter.py:141-146 | a successful pass yields a well-formed table with unique names, no deeper than its input, and strictly shallower without `keep` when the input was nested |
| Flattening.FlattenAll | pyarrow_pandas/pyarrow_pandas_converter.py:49-74 | the loop of `flatten_all_columns`: the table held afterwards and the result or error; the lemmas below state its properties |
| Flattening.FlattenAllHeld | pyarrow_pandas/pyarrow_pandas_converter.py:66-74 | a successful run returns the table it leaves held; a well-formed table stays well formed |
| Flattening.FlattenAllTyped | pyarrow_pandas/pyarrow_pandas_converter.py:67-73 | the held table stays typed through every pass |
| Flattening.FlattenAllFlat | pyarrow_pandas/pyarrow_pandas_converter.py:67-73 | a successful recursive run without `keep` leaves no nested column |
| Flattening.FlattenAllAtMostOnePass | pyarrow_pandas/pyarrow_pandas_converter.py:72-73 | without `recursive` the result is one pass if the table is nested, the table itself otherwise |
| Flattening.FlattenAllNoNested | pyarrow_pandas/pyarrow_pandas_converter.py:67 | a table with no nested column is returned unchanged |
| Flattening.FlattenAllIdempotent | pyarrow_pandas/pyarrow_pandas_converter.py:66-74 | flattening the result of a successful recursive flatten changes nothing |
| Flattening.KeepAndRecursiveNeverSettles | pyarrow_pandas/pyarrow_pandas_converter.py:163-164 | a table with a struct column, flattened with `keep`, is mapped to itself, so the recursive loop never ends |
| Arrow.TableFlatten | pyarrow_pandas/pyarrow_pandas_converter.py:91 | each column in order, a struct column replaced by its children named `parent.sub`, one level only |
| SanityTests.KeptListSettles | pyarrow_pandas/pyarrow_pandas_converter.py:67-73 | with `keep`, one pass over the `simple_list` table replaces the kept list by its flattening and leaves no nested column, so the recursive loop stops |
| Flattening.TableFlattenInvariant | pyarrow_pandas/pyarrow_pandas_converter.py:91 | `Table.flatten()` keeps the table typed and rectangular and strictly lowers its struct depth when it has a struct column |
| Flattening.TableFlattenNoStructs | pyarrow_pandas/pyarrow_pandas_converter.py:87-91 | `Table.flatten()` leaves a table without struct columns unchanged |
| Flattening.FlattenStructs | pyarrow_pandas/pyarrow_pandas_converter.py:76-94 | the loop of `flatten_struct_columns`: `Table.flatten()` while some column is a struct, once unless recursive |
| Flattening.FlattenStructsFlat | pyarrow_pandas/pyarrow_pandas_converter.py:86-94 | the struct loop keeps the table well formed and, when recursive, leaves no struct column |
| Flattening.FlattenStructsAtMostOnePass | pyarrow_pandas/pyarrow_pandas_converter.py:92-93 | without `recursive` the result is one `Table.flatten()` if there is a struct column, the table otherwise |
| Flattening.FlattenStructsNoStructs | pyarrow_pandas/pyarrow_pandas_converter.py:87 | a table without struct columns is returned unchanged |
| Flattening.SingleStructPass | pyarrow_pandas/pyarrow_pandas_converter.py:186-188 | a one-column struct table with distinct subfield names becomes one `parent.sub` column per subfield, holding the struct's children |
| SanityTests.CompositeKeysFlattens | pyarrow_pandas/tests/test_sanity.py:16-46 | the four-column table (`id`, `person`, `complicated_person`, `simple_list`), flattened recursively with composite names, takes two passes and gives `id`, `person.name`, `person.age`, `complicated_person.student.name`, `complicated_person.student.age` and `simple_list` as `[l1, l2]`, each with the table's two rows |
| SanityTests.ComplicatedPersonFlattens | pyarrow_pandas/tests/test_sanity.py:22-27 | the `complicated_person` column on its own: a struct of a struct is still nested after one pass, and the recursive result is `complicated_person.student.name` and `complicated_person.student.age` |
| SanityTests.ListAndPersonStructsFlatten | pyarrow_pandas/tests/test_sanity.py:49-67 | the struct-only flatten splits `person` into `person.name` and `person.age` and leaves the list column untouched |
| SanityTests.MapTableFlattens | pyarrow_pandas/tests/test_sanity.py:120-136 | a two-row map column flattens to `map_array.keys` and `map_array.values` holding all four keys and values in row order |
| Arrow.ColumnNamed | pyarrow_pandas/pyarrow_pandas_converter.py:164 | the lookup of a column by name; `ColumnNamedCases` states its three outcomes |
| Arrow.ColumnNamedCases | pyarrow_pandas/pyarrow_pandas_converter.py:164 | a column lookup fails when no column has the name, fails as ambiguous when two have it, and returns the column when exactly one has it |
| Arrow.ColumnNamedFound | pyarrow_pandas/pyarrow_pandas_converter.py:164 | a successful lookup returns the array of every column that carries the name |
| Arrow.TableFromDict | pyarrow_pandas/pyarrow_pandas_converter.py:144 | building a table succeeds iff all arrays have the same length; its columns are the dict's entries in order |
| OrderedDict.Put | pyarrow_pandas/pyarrow_pandas_converter.py:164 | an assignment appends a new key at the end and leaves the key order alone for a key already present |
| OrderedDict.PutFacts | pyarrow_pandas/pyarrow_pandas_converter.py:164 | an assignment sets the key's value, keeps every other key's value, writes no other pair and keeps the keys unique |
| OrderedDict.UpdateFacts | pyarrow_pandas/pyarrow_pandas_converter.py:166 | `update` keeps keys unique, adds new keys in first-occurrence order and maps each written key to its last written value |
| OrderedDict.FromPairsDistinct | pyarrow_pandas/pyarrow_pandas_converter.py:188 | `dict(zip(names, arrays))` over distinct names keeps every pair in order |
| SafeConvert.DtypeLookup | pyarrow_pandas/pyarrow_pandas_converter.py:293-309 | the lookup finds a dtype exactly for the twelve listed scalar types |
| SafeConvert.DtypeLookupInverse | pyarrow_pandas/pyarrow_pandas_converter.py:293-305 | each dtype is found for exactly the one type it stands for |
| SafeConvert.DtypeLookupInjective | pyarrow_pandas/pyarrow_pandas_converter.py:293-305 | two different types never get the same dtype |
| SafeConvert.MapTypeFallsBack | pyarrow_pandas/pyarrow_pandas_converter.py:306 | a map column finds no dtype: the entry is keyed by the map-type constructor, not by a map type |
| SafeConvert.MapToDict | pyarrow_pandas/pyarrow_pandas_converter.py:270-280 | one dict per row |
| SafeConvert.CellDict | pyarrow_pandas/pyarrow_pandas_converter.py:280 | `dict(zip(keys, values))` of one map cell; `MapToDictRow` states its contents |
| SafeConvert.MapToDictRow | pyarrow_pandas/pyarrow_pandas_converter.py:280 | a row's dict has each stored key once, in first-occurrence order, mapped to the value stored last for it |
| SafeConvert.MapToDictDuplicateKey | pyarrow_pandas/pyarrow_pandas_converter.py:280 | a row storing `k` first with `a` and then with `b` becomes `{k: b}` |

## Left out

- Logging and timing (`logging.basicConfig`, the `logger.info`/`logger.error` calls,
  `time.perf_counter` and `_log_flattening_performance`) have no effect on the tables and are not
  modelled.
- The `ValueError` that `_validate_table_set` raises is the `NoTableSet` error value. The other
  library exceptions are error values too: a missing column name (`UnknownColumn`), a duplicate one
  (`AmbiguousColumn`) and arrays of different lengths given to `pa.table` (`LengthMismatch`).
- Flattener.TableFlattener.FlattenAllColumns: requires that `recursive` and `keep_nested_columns`
  are not both set. With both set the source can loop forever
  (`Flattening.KeepAndRecursiveNeverSettles`), and `FlattenAll` could not be defined as a
  terminating function. The requirement also excludes the inputs with both flags on which the
  source does stop: tables whose nested columns are lists that settle (`SanityTests.KeptListSettles`
  shows one settling after one pass), tables where an expansion overwrites the kept column, and
  runs ended by a failing pass. The model says nothing about those runs.
- Flattening.FlattenAll: requires that `recursive` and `keep` are not both set, for the same
  reason: with both the loop can run forever (`Flattening.KeepAndRecursiveNeverSettles`). The
  requirement also excludes the runs with both flags on which the source stops: tables whose
  nested columns are lists that settle (`SanityTests.KeptListSettles`), tables where an expansion
  overwrites the kept column, and runs ended by a failing pass. `FlattenAll` says nothing about
  those runs.
- Flattening.MapArraysTyped: the keys and values arrays are given the map's key and item types.
  The source builds them with `pa.array`, which infers the type from the values; in particular an
  empty list infers the null type. Type inference is not modelled.
- A null map row contributes no entries, both in `_flatten_map_field` and in `map_to_dict`, where
  it gives an empty dict. How the table library represents a null map scalar (a scalar object that
  is never `None`) is not modelled.
- `to_pandas_safe` is modelled only as the `types_mapper` lookup it passes. The pandas conversion
  (`Table.to_pandas`) and the DataFrame are outside the model. So are the pandas dtypes' own
  behaviour and the Parquet round-trip of the tests.
- Chunking is not modelled. A chunked array is one sequence of cells, and the tests' comparisons of
  chunked arrays are comparisons of those sequences.
- Cell payloads (integers of each width, floats, strings) are opaque tokens. Arithmetic, encodings
  and float semantics never enter the engine.
- `Table.flatten()`, `ChunkedArray.flatten()`, `pc.list_flatten` and `pa.table` are modelled by
  their observable results: a struct's children, the concatenation of list cells and a column per
  dict entry. Their internal buffer handling is not modelled.
- Input tables are taken to be ones the library can build: every cell has its column's type and
  all columns have the same length (the `Valid` predicate of the class). The library enforces this
  when a table is created. Duplicate column names are allowed, as in the library, and a lookup of
  a duplicated name fails.

/**
 * The flattener object: it holds one optional table and replaces it with every pass. Each method
 * is proved against the function of the Flattening module that specifies it.
 */
module Flattener {
  import opened Wrappers
  import opened Seqs
  import opened OrderedDict
  import opened Arrow
  import opened Flattening

  class TableFlattener {
    /** `_table`: the table to flatten, None until one is set. */
    var table: Option<Table>

    /** A held table is one the table library could have built. */
    ghost predicate Valid()
      reads this
    {
      table.Some? ==> WellFormed(table.value)
    }

    /** `__init__`: the flattener starts with the given table, or none. */
    constructor (t: Option<Table>)
      requires t.Some? ==> WellFormed(t.value)
      ensures Valid() && table == t
    {
      table := t;
    }

    /** `set_table`: the given table replaces the held one. */
    method SetTable(t: Table)
      requires WellFormed(t)
      modifies this
      ensures Valid() && table == Some(t)
    {
      table := Some(t);
    }

    /** `_validate_table_set`: a ValueError when no table is set; otherwise the held table. */
    method ValidateTableSet() returns (r: Result<Table, Error>)
      ensures r.Failure? <==> table.None?
      ensures r.Failure? ==> r.error == NoTableSet
      ensures r.Success? ==> table == Some(r.value)
    {
      if table.None? {
        return Failure(NoTableSet);
      }
      return Success(table.value);
    }

    /**
     * `_flatten_map_field`: every entry of every non-null row, row after row, into a keys and a
     * values list, then a dict from the two names to the two arrays.
     */
    method FlattenMapFieldEntries(i: nat, composite: bool) returns (r: Result<ArraysDict, Error>)
      requires Valid() && table.Some? && i < |table.value| && table.value[i].arr.ty.Map?
      ensures r == FlattenMapField(table.value, i, composite)
    {
      var t := table.value;
      ColumnNamedFound(t, t[i].name);
      var mapArray :- ColumnNamed(t, t[i].name);
      assert mapArray == t[i].arr && Typed(mapArray);
      var data := mapArray.data;
      var keys: seq<Value> := [];
      var values: seq<Value> := [];
      ghost var seen: seq<Entry> := [];
      for row := 0 to |data|
        invariant seen == ConcatMap(data[..row], RowEntries)
        invariant keys == EntryKeys(seen) && values == EntryItems(seen)
      {
        ConcatMapPrefix(data, row, RowEntries);
        if data[row] != Null {
          assert HasType(data[row], mapArray.ty);
          var pairs := data[row].pairs;
          ghost var before := seen;
          for j := 0 to |pairs|
            invariant seen == before + pairs[..j]
            invariant keys == EntryKeys(seen) && values == EntryItems(seen)
          {
            EntriesSnoc(seen, pairs[j]);
            keys := keys + [pairs[j].key];
            values := values + [pairs[j].item];
            seen := seen + [pairs[j]];
            assert pairs[..j + 1] == pairs[..j] + [pairs[j]];
          }
          assert pairs[..|pairs|] == pairs;
        }
      }
      assert data[..|data|] == data;
      var prefix := if composite then t[i].name + "." else "";
      var names := [prefix + "keys", prefix + "values"];
      var columns := [ChunkedArray(mapArray.ty.key, keys), ChunkedArray(mapArray.ty.item, values)];
      assert names == MapNames(t[i].name, composite) && columns == MapArrays(mapArray);
      return Success(FromPairs(Zip(names, columns)));
    }

    /**
     * One iteration of `_build_flattened_arrays_dict`: the field is copied into `d` unless it is
     * nested and not kept, then its expansion is merged in; a failed lookup fails the iteration.
     */
    method BuildFieldStep(i: nat, composite: bool, keep: bool, d: ArraysDict) returns (r: Result<ArraysDict, Error>)
      requires Valid() && table.Some? && i < |table.value|
      ensures r == FieldStep(table.value, i, composite, keep, d)
    {
      var t := table.value;
      var field := FieldOf(t[i]);
      var arrays := d;
      if !IsNested(field.ty) || keep {
        var column := ColumnNamed(t, field.name);
        if column.Failure? {
          return Failure(column.error);
        }
        arrays := Put(arrays, field.name, column.value);
      }
      assert CopyField(t, i, keep, d) == Success(arrays);
      var expansion: Result<ArraysDict, Error> := Success([]);
      if field.ty.Struct? {
        expansion := FlattenStructField(t, i, composite);
      } else if field.ty.List? {
        expansion := FlattenListField(t, i);
      } else if field.ty.Map? {
        expansion := FlattenMapFieldEntries(i, composite);
      }
      assert expansion == Expansion(t, i, composite);
      if expansion.Failure? {
        return Failure(expansion.error);
      }
      return Success(Update(arrays, expansion.value));
    }

    /**
     * `_build_flattened_arrays_dict`: the fields in schema order, each copied and expanded into
     * the dict; the first failed lookup ends the pass.
     */
    method BuildFlattenedArraysDict(composite: bool, keep: bool) returns (r: Result<ArraysDict, Error>)
      requires Valid() && table.Some?
      ensures r == BuildArraysDict(table.value, |table.value|, composite, keep)
    {
      var t := table.value;
      var arrays: ArraysDict := [];
      for i := 0 to |t|
        invariant BuildArraysDict(t, i, composite, keep) == Success(arrays)
      {
        var step := BuildFieldStep(i, composite, keep, arrays);
        BuildArraysDictNext(t, i, composite, keep, arrays);
        if step.Failure? {
          BuildArraysDictFailure(t, i + 1, |t|, composite, keep);
          return Failure(step.error);
        }
        arrays := step.value;
      }
      return Success(arrays);
    }

    /** `_flatten_nested_columns`: build the dict, then the table from it. */
    method FlattenNestedColumns(composite: bool, keep: bool) returns (r: Result<Table, Error>)
      requires Valid() && table.Some?
      ensures r == Pass(table.value, composite, keep)
    {
      var arrays :- BuildFlattenedArraysDict(composite, keep);
      r := TableFromDict(arrays);
    }

    /**
     * `flatten_all_columns`: while some column is nested, replace the held table by one pass over
     * it, stopping after the first pass unless `recursive`. A failed pass leaves the last table held.
     */
    method FlattenAllColumns(recursive: bool, composite: bool, keep: bool) returns (r: Result<Table, Error>)
      requires Valid() && !(recursive && keep)
      modifies this
      ensures Valid()
      ensures old(table).None? ==> r == Failure(NoTableSet) && table == old(table)
      ensures old(table).Some? ==>
                table == Some(FlattenAll(old(table).value, recursive, composite, keep).held) &&
                r == FlattenAll(old(table).value, recursive, composite, keep).result
    {
      var validated := ValidateTableSet();
      if validated.Failure? {
        return Failure(validated.error);
      }
      ghost var start := table.value;
      while HasNestedColumns(table.value)
        invariant Valid() && table.Some?
        invariant FlattenAll(table.value, recursive, composite, keep) == FlattenAll(start, recursive, composite, keep)
        decreases MaxDepth(table.value)
      {
        var current := table.value;
        var flattened := FlattenNestedColumns(composite, keep);
        if flattened.Failure? {
          return Failure(flattened.error);
        }
        PassInvariant(current, composite, keep);
        table := Some(flattened.value);
        if !recursive {
          break;
        }
      }
      return Success(table.value);
    }

    /**
     * `flatten_struct_columns`: while some column is a struct, replace the held table by its
     * `Table.flatten()`, stopping after the first pass unless `recursive`.
     */
    method FlattenStructColumns(recursive: bool) returns (r: Result<Table, Error>)
      requires Valid()
      modifies this
      ensures Valid()
      ensures old(table).None? ==> r == Failure(NoTableSet) && table == old(table)
      ensures old(table).Some? ==>
                table == Some(FlattenStructs(old(table).value, recursive)) && r == Success(table.value)
    {
      var validated := ValidateTableSet();
      if validated.Failure? {
        return Failure(validated.error);
      }
      ghost var start := table.value;
      while HasStructColumns(table.value)
        invariant Valid() && table.Some?
        invariant FlattenStructs(table.value, recursive) == FlattenStructs(start, recursive)
        decreases MaxStructDepth(table.value)
      {
        var current := table.value;
        TableFlattenInvariant(current);
        table := Some(TableFlatten(current));
        if !recursive {
          break;
        }
      }
      return Success(table.value);
    }
  }
}

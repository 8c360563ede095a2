/**
 * The flattening engine as functions. One pass walks the schema in order and fills an
 * insertion-ordered name-to-array dict: non-nested columns (and, on request, nested ones) are
 * copied, struct columns expand into one column per sub-field, list columns become the row-major
 * concatenation of their elements, map columns become a keys and a values column. The table is
 * then built from the dict. The two repeat-until-flat loops of the flattener are given here as
 * the functions its methods are proved against.
 */
module Flattening {
  import opened Wrappers
  import opened Seqs
  import opened Folds
  import opened OrderedDict
  import opened Arrow

  /** The name-to-array dict one pass fills. */
  type ArraysDict = seq<(string, ChunkedArray)>

  /** The schema field of a column. */
  function FieldOf(c: Column): Field
  {
    Field(c.name, c.arr.ty)
  }

  /** `_has_nested_columns`: some field has a nested type. */
  predicate HasNestedColumns(t: Table)
  {
    exists i | 0 <= i < |t| :: IsNested(t[i].arr.ty)
  }

  /** `_has_struct_columns`: some field has a struct type. */
  predicate HasStructColumns(t: Table)
  {
    exists i | 0 <= i < |t| :: t[i].arr.ty.Struct?
  }

  /** The deepest nesting among the columns: the measure that full flattening decreases. */
  function MaxDepth(t: Table): nat
  {
    MaxOf(seq(|t|, i requires 0 <= i < |t| => Depth(t[i].arr.ty)))
  }

  /** The deepest stack of structs among the columns: the measure that struct flattening decreases. */
  function MaxStructDepth(t: Table): nat
  {
    MaxOf(seq(|t|, i requires 0 <= i < |t| => StructDepth(t[i].arr.ty)))
  }

  /** The nested-column test agrees with the depth measure: a table has a nested column exactly when its depth is positive. */
  lemma HasNestedIffDeep(t: Table)
    ensures HasNestedColumns(t) <==> MaxDepth(t) > 0
    ensures forall i :: 0 <= i < |t| ==> Depth(t[i].arr.ty) <= MaxDepth(t)
  {
    var ds := seq(|t|, i requires 0 <= i < |t| => Depth(t[i].arr.ty));
    assert MaxDepth(t) == MaxOf(ds);
    forall i | 0 <= i < |t| ensures Depth(t[i].arr.ty) <= MaxDepth(t) && (IsNested(t[i].arr.ty) <==> ds[i] > 0) {
      assert ds[i] == Depth(t[i].arr.ty);
      DepthFacts(t[i].arr.ty);
    }
    if MaxDepth(t) > 0 {
      var i :| 0 <= i < |ds| && ds[i] == MaxOf(ds);
      assert IsNested(t[i].arr.ty);
    }
  }

  /** The struct-column test agrees with the struct-depth measure. */
  lemma HasStructIffStructDeep(t: Table)
    ensures HasStructColumns(t) <==> MaxStructDepth(t) > 0
    ensures forall i :: 0 <= i < |t| ==> StructDepth(t[i].arr.ty) <= MaxStructDepth(t)
  {
    var ds := seq(|t|, i requires 0 <= i < |t| => StructDepth(t[i].arr.ty));
    assert MaxStructDepth(t) == MaxOf(ds);
    forall i | 0 <= i < |t| ensures StructDepth(t[i].arr.ty) <= MaxStructDepth(t) && (t[i].arr.ty.Struct? <==> ds[i] > 0) {
      assert ds[i] == StructDepth(t[i].arr.ty);
    }
    if MaxStructDepth(t) > 0 {
      var i :| 0 <= i < |ds| && ds[i] == MaxOf(ds);
      assert t[i].arr.ty.Struct?;
    }
  }

  /** `_generate_subfield_names`: one name per sub-field, `parent.sub` under composite naming, `sub` otherwise. */
  function GenerateSubfieldNames(f: Field, composite: bool): seq<string>
    requires f.ty.Struct?
  {
    var fs := f.ty.fields;
    if composite then seq(|fs|, i requires 0 <= i < |fs| => Composite(f.name, fs[i].name))
    else seq(|fs|, i requires 0 <= i < |fs| => fs[i].name)
  }

  /**
   * Struct naming: exactly one name per sub-field, in sub-field order; composite names are the
   * parent, a dot and the sub-field; distinct sub-field names give distinct names under either policy.
   */
  lemma SubfieldNaming(f: Field, composite: bool)
    requires f.ty.Struct?
    ensures |GenerateSubfieldNames(f, composite)| == |f.ty.fields|
    ensures forall i :: 0 <= i < |f.ty.fields| ==>
              GenerateSubfieldNames(f, composite)[i] ==
                (if composite then f.name + "." + f.ty.fields[i].name else f.ty.fields[i].name)
    ensures (forall i, j :: 0 <= i < j < |f.ty.fields| ==> f.ty.fields[i].name != f.ty.fields[j].name) ==>
              forall i, j :: 0 <= i < j < |f.ty.fields| ==>
                GenerateSubfieldNames(f, composite)[i] != GenerateSubfieldNames(f, composite)[j]
  {
    var fs := f.ty.fields;
    var names := GenerateSubfieldNames(f, composite);
    forall i, j | 0 <= i < j < |fs| && fs[i].name != fs[j].name ensures names[i] != names[j] {
      if composite {
        var p := |f.name| + 1;
        assert names[i][p..] == fs[i].name;
        assert names[j][p..] == fs[j].name;
      }
    }
  }

  /** Struct column `person` with sub-fields `name` and `age` yields `person.name`, `person.age` or `name`, `age`. */
  lemma SubfieldNamingExample()
    ensures GenerateSubfieldNames(Field("person", Struct([Field("name", Prim(Utf8)), Field("age", Prim(Int64))])), true)
            == ["person.name", "person.age"]
    ensures GenerateSubfieldNames(Field("person", Struct([Field("name", Prim(Utf8)), Field("age", Prim(Int64))])), false)
            == ["name", "age"]
  {
    assert Composite("person", "name") == "person.name";
    assert Composite("person", "age") == "person.age";
  }

  /** Python's `zip` of two sequences of equal length. */
  function Zip<A, B>(xs: seq<A>, ys: seq<B>): (ps: seq<(A, B)>)
    requires |xs| == |ys|
  {
    seq(|xs|, i requires 0 <= i < |xs| => (xs[i], ys[i]))
  }

  /** The (name, array) pairs a struct column expands into. */
  function StructPairs(t: Table, i: nat, col: ChunkedArray, composite: bool): ArraysDict
    requires i < |t| && t[i].arr.ty.Struct? && col == t[i].arr && Typed(col)
  {
    Zip(GenerateSubfieldNames(FieldOf(t[i]), composite), StructChildren(col))
  }

  /** The entries of one map cell in stored order; a null cell has none. */
  function RowEntries(v: Value): seq<Entry>
  {
    if v.Entries? then v.pairs else []
  }

  function EntryKeys(es: seq<Entry>): seq<Value>
  {
    seq(|es|, k requires 0 <= k < |es| => es[k].key)
  }

  function EntryItems(es: seq<Entry>): seq<Value>
  {
    seq(|es|, k requires 0 <= k < |es| => es[k].item)
  }

  /** One more entry adds its key and its item at the end. */
  lemma EntriesSnoc(es: seq<Entry>, e: Entry)
    ensures EntryKeys(es + [e]) == EntryKeys(es) + [e.key]
    ensures EntryItems(es + [e]) == EntryItems(es) + [e.item]
  {
  }

  /** The names of the two columns a map column becomes. */
  function MapNames(name: string, composite: bool): seq<string>
  {
    var prefix := if composite then name + "." else "";
    [prefix + "keys", prefix + "values"]
  }

  /** The keys and values arrays of a map column: all entries of the non-null rows, row after row. */
  function MapArrays(col: ChunkedArray): seq<ChunkedArray>
    requires col.ty.Map?
  {
    var es := ConcatMap(col.data, RowEntries);
    [ChunkedArray(col.ty.key, EntryKeys(es)), ChunkedArray(col.ty.item, EntryItems(es))]
  }

  /** `_flatten_struct_field`: `dict(zip(subfield names, column.flatten()))`. */
  function FlattenStructField(t: Table, i: nat, composite: bool): Result<ArraysDict, Error>
    requires AllTyped(t) && i < |t| && t[i].arr.ty.Struct?
  {
    ColumnNamedFound(t, t[i].name);
    var col :- ColumnNamed(t, t[i].name);
    Success(FromPairs(StructPairs(t, i, col, composite)))
  }

  /** `_flatten_list_field`: the flattened list under the field's own name. */
  function FlattenListField(t: Table, i: nat): Result<ArraysDict, Error>
    requires i < |t| && t[i].arr.ty.List?
  {
    ColumnNamedFound(t, t[i].name);
    var col :- ColumnNamed(t, t[i].name);
    Success([(t[i].name, ListFlatten(col))])
  }

  /** `_flatten_map_field`: `dict(zip([prefix + "keys", prefix + "values"], [keys, values]))`. */
  function FlattenMapField(t: Table, i: nat, composite: bool): Result<ArraysDict, Error>
    requires i < |t| && t[i].arr.ty.Map?
  {
    ColumnNamedFound(t, t[i].name);
    var col :- ColumnNamed(t, t[i].name);
    Success(FromPairs(Zip(MapNames(t[i].name, composite), MapArrays(col))))
  }

  /** The copy at the head of each iteration: the original column, unless it is nested and nested columns are dropped. */
  function CopyField(t: Table, i: nat, keep: bool, d: ArraysDict): Result<ArraysDict, Error>
    requires i < |t|
  {
    if !IsNested(t[i].arr.ty) || keep then
      var col :- ColumnNamed(t, t[i].name);
      Success(Put(d, t[i].name, col))
    else Success(d)
  }

  /** The expansion of a struct, list or map field (the `update` argument); other fields expand to nothing. */
  function Expansion(t: Table, i: nat, composite: bool): Result<ArraysDict, Error>
    requires AllTyped(t) && i < |t|
  {
    var ty := t[i].arr.ty;
    if ty.Struct? then FlattenStructField(t, i, composite)
    else if ty.List? then FlattenListField(t, i)
    else if ty.Map? then FlattenMapField(t, i, composite)
    else Success([])
  }

  /** One iteration of the loop over the schema: the copy, then the update with the field's expansion. */
  function FieldStep(t: Table, i: nat, composite: bool, keep: bool, d: ArraysDict): Result<ArraysDict, Error>
    requires AllTyped(t) && i < |t|
  {
    var d1 :- CopyField(t, i, keep, d);
    var e :- Expansion(t, i, composite);
    Success(Update(d1, e))
  }

  /** The loop body of `_build_flattened_arrays_dict` as a step on the dict. */
  function BuildStep(t: Table, composite: bool, keep: bool): (nat, ArraysDict) --> Result<ArraysDict, Error>
  {
    (i: nat, d: ArraysDict) requires AllTyped(t) && i < |t| => FieldStep(t, i, composite, keep, d)
  }

  /**
   * `_build_flattened_arrays_dict` over the first `n` fields of the schema: the steps in schema
   * order from the empty dict, the first failure ending the loop.
   */
  function BuildArraysDict(t: Table, n: nat, composite: bool, keep: bool): Result<ArraysDict, Error>
    requires AllTyped(t) && n <= |t|
  {
    Run(n, [], BuildStep(t, composite, keep))
  }

  /** `_flatten_nested_columns`: one pass, the dict and then the table built from it. */
  function Pass(t: Table, composite: bool, keep: bool): Result<Table, Error>
    requires AllTyped(t)
  {
    var d :- BuildArraysDict(t, |t|, composite, keep);
    TableFromDict(d)
  }

  /** Iteration `i` of a pass continues from the dict the first `i` iterations built. */
  lemma BuildArraysDictNext(t: Table, i: nat, composite: bool, keep: bool, d: ArraysDict)
    requires AllTyped(t) && i < |t| && BuildArraysDict(t, i, composite, keep) == Success(d)
    ensures BuildArraysDict(t, i + 1, composite, keep) == FieldStep(t, i, composite, keep, d)
  {
    RunNext(i, [], BuildStep(t, composite, keep), d);
  }

  /** A failed iteration ends the pass: later fields do not change the outcome. */
  lemma BuildArraysDictFailure(t: Table, n: nat, m: nat, composite: bool, keep: bool)
    requires AllTyped(t) && n <= m <= |t|
    requires BuildArraysDict(t, n, composite, keep).Failure?
    ensures BuildArraysDict(t, m, composite, keep) == BuildArraysDict(t, n, composite, keep)
  {
    RunFailure(n, m, [], BuildStep(t, composite, keep));
  }

  /* ---------- The dict as the result of a flat sequence of writes ---------- */

  /** The write of the copy step, if the field is copied. */
  function CopyWrites(t: Table, i: nat, keep: bool): Result<ArraysDict, Error>
    requires i < |t|
  {
    if !IsNested(t[i].arr.ty) || keep then
      var col :- ColumnNamed(t, t[i].name);
      Success([(t[i].name, col)])
    else Success([])
  }

  /** The writes of the expansion step, one pair per produced column, before any dict merges them. */
  function ExpansionWrites(t: Table, i: nat, composite: bool): Result<ArraysDict, Error>
    requires AllTyped(t) && i < |t|
  {
    ColumnNamedFound(t, t[i].name);
    var ty := t[i].arr.ty;
    if ty.Struct? then
      var col :- ColumnNamed(t, t[i].name);
      Success(StructPairs(t, i, col, composite))
    else if ty.List? then
      var col :- ColumnNamed(t, t[i].name);
      Success([(t[i].name, ListFlatten(col))])
    else if ty.Map? then
      var col :- ColumnNamed(t, t[i].name);
      Success(Zip(MapNames(t[i].name, composite), MapArrays(col)))
    else Success([])
  }

  /** The writes of field `i`, as a flat sequence of (name, array) pairs in the order they happen. */
  function FieldWrites(t: Table, i: nat, composite: bool, keep: bool): Result<ArraysDict, Error>
    requires AllTyped(t) && i < |t|
  {
    var copy :- CopyWrites(t, i, keep);
    var expansion :- ExpansionWrites(t, i, composite);
    Success(copy + expansion)
  }

  /** The writes of each field, as a function of its position. */
  function FieldWritesOf(t: Table, composite: bool, keep: bool): nat --> Result<ArraysDict, Error>
  {
    (i: nat) requires AllTyped(t) && i < |t| => FieldWrites(t, i, composite, keep)
  }

  /** All writes of the first `n` fields, in schema order. */
  function Writes(t: Table, n: nat, composite: bool, keep: bool): Result<ArraysDict, Error>
    requires AllTyped(t) && n <= |t|
  {
    Collect(n, FieldWritesOf(t, composite, keep))
  }

  lemma PutIsUpdate<K(!new), V>(d: seq<(K, V)>, k: K, v: V)
    ensures Put(d, k, v) == Update(d, [(k, v)])
  {
    assert [(k, v)][..0] == [];
  }

  /** The copy step writes the copy's pair into the dict. */
  lemma CopyFieldWrites(t: Table, i: nat, keep: bool, d: ArraysDict)
    requires i < |t|
    ensures CopyField(t, i, keep, d) ==
              if CopyWrites(t, i, keep).Success? then Success(Update(d, CopyWrites(t, i, keep).value))
              else Failure(CopyWrites(t, i, keep).error)
  {
    if !IsNested(t[i].arr.ty) || keep {
      var lookup := ColumnNamed(t, t[i].name);
      if lookup.Success? {
        PutIsUpdate(d, t[i].name, lookup.value);
      }
    }
  }

  /** Updating with a field's expansion dict has the effect of writing its pairs one by one. */
  lemma ExpansionIsWrites(t: Table, i: nat, composite: bool, d: ArraysDict)
    requires AllTyped(t) && i < |t| && UniqueKeys(d)
    ensures Expansion(t, i, composite).Success? <==> ExpansionWrites(t, i, composite).Success?
    ensures Expansion(t, i, composite).Failure? ==>
              Expansion(t, i, composite).error == ExpansionWrites(t, i, composite).error
    ensures Expansion(t, i, composite).Success? ==>
              Update(d, Expansion(t, i, composite).value) == Update(d, ExpansionWrites(t, i, composite).value)
  {
    var ty := t[i].arr.ty;
    var lookup := ColumnNamed(t, t[i].name);
    if lookup.Success? && (ty.Struct? || ty.Map?) {
      UpdateFromPairs(d, ExpansionWrites(t, i, composite).value);
    }
  }

  /** One iteration writes exactly the field's writes into the dict, and fails exactly when they fail. */
  lemma FieldStepWrites(t: Table, i: nat, composite: bool, keep: bool, ws: ArraysDict)
    requires AllTyped(t) && i < |t|
    ensures FieldStep(t, i, composite, keep, FromPairs(ws)) ==
              if FieldWrites(t, i, composite, keep).Success? then Success(FromPairs(ws + FieldWrites(t, i, composite, keep).value))
              else Failure(FieldWrites(t, i, composite, keep).error)
  {
    var d := FromPairs(ws);
    UpdateFacts([], ws);
    assert UniqueKeys<string, ChunkedArray>([]);
    CopyFieldWrites(t, i, keep, d);
    var copy := CopyWrites(t, i, keep);
    if copy.Success? {
      var d1 := Update(d, copy.value);
      UpdateFacts(d, copy.value);
      ExpansionIsWrites(t, i, composite, d1);
      var expansion := ExpansionWrites(t, i, composite);
      if expansion.Success? {
        UpdateAppend(d, copy.value, expansion.value);
        UpdateAppend([], ws, copy.value + expansion.value);
      }
    }
  }

  /** The dict of the first `n` fields is the dict of their flat writes, and a failure is the same failure. */
  lemma BuildArraysDictWrites(t: Table, n: nat, composite: bool, keep: bool)
    requires AllTyped(t) && n <= |t|
    ensures BuildArraysDict(t, n, composite, keep) ==
              if Writes(t, n, composite, keep).Success? then Success(FromPairs(Writes(t, n, composite, keep).value))
              else Failure(Writes(t, n, composite, keep).error)
  {
    var step := BuildStep(t, composite, keep);
    var out := FieldWritesOf(t, composite, keep);
    forall i: nat, ws: ArraysDict | i < n
      ensures step(i, FromPairs(ws)) ==
                if out(i).Success? then Success(FromPairs(ws + out(i).value)) else Failure(out(i).error)
    {
      FieldStepWrites(t, i, composite, keep, ws);
    }
    assert FromPairs<string, ChunkedArray>([]) == [];
    RunCollect(n, [], step, out, FromPairs);
  }

  /**
   * Pass assembly: the columns of a pass's table carry the written names in order of first write,
   * and each holds the array written last under its name.
   */
  lemma PassAssembly(t: Table, composite: bool, keep: bool)
    requires AllTyped(t)
    ensures Pass(t, composite, keep).Success? ==> Writes(t, |t|, composite, keep).Success?
    ensures Pass(t, composite, keep).Success? ==>
              var ws := Writes(t, |t|, composite, keep).value;
              var out := Pass(t, composite, keep).value;
              seq(|out|, k requires 0 <= k < |out| => out[k].name) == AddKeys([], Keys(ws)) &&
              forall k :: 0 <= k < |out| ==> out[k].name in Keys(ws) && out[k].arr == LastValue(ws, out[k].name)
  {
    BuildArraysDictWrites(t, |t|, composite, keep);
    if Pass(t, composite, keep).Success? {
      var ws := Writes(t, |t|, composite, keep).value;
      var d := FromPairs(ws);
      var out := Pass(t, composite, keep).value;
      UpdateFacts([], ws);
      assert UniqueKeys<string, ChunkedArray>([]);
      assert Keys<string, ChunkedArray>([]) == [];
      assert seq(|out|, k requires 0 <= k < |out| => out[k].name) == Keys(d);
      forall k | 0 <= k < |out| ensures out[k].name in Keys(ws) && out[k].arr == LastValue(ws, out[k].name) {
        GetAt(d, k);
        AddKeysMember([], Keys(ws), d[k].0);
      }
    }
  }

  /** Within the writes of a list field the flattened list is written last under the field's name, so a kept list column is replaced by it. */
  lemma ListFieldWrittenLast(t: Table, i: nat, composite: bool, keep: bool)
    requires AllTyped(t) && i < |t| && t[i].arr.ty.List?
    requires FieldWrites(t, i, composite, keep).Success?
    ensures var fw := FieldWrites(t, i, composite, keep).value;
            t[i].name in Keys(fw) && LastValue(fw, t[i].name) == ListFlatten(t[i].arr)
    ensures keep ==> FieldWrites(t, i, composite, keep).value ==
                       [(t[i].name, t[i].arr), (t[i].name, ListFlatten(t[i].arr))]
  {
    ColumnNamedFound(t, t[i].name);
    var fw := FieldWrites(t, i, composite, keep).value;
    assert Keys(fw)[|fw| - 1] == t[i].name;
  }

  /** A non-nested field writes only its own column, under its own name. */
  lemma FlatFieldCopied(t: Table, i: nat, composite: bool, keep: bool)
    requires AllTyped(t) && i < |t| && !IsNested(t[i].arr.ty)
    requires FieldWrites(t, i, composite, keep).Success?
    ensures FieldWrites(t, i, composite, keep).value == [(t[i].name, t[i].arr)]
  {
    ColumnNamedFound(t, t[i].name);
  }

  /** The keys and values columns of a map column fit the map's key and item types. */
  lemma MapArraysTyped(col: ChunkedArray)
    requires col.ty.Map? && Typed(col)
    ensures Typed(MapArrays(col)[0]) && Typed(MapArrays(col)[1])
  {
    var es := ConcatMap(col.data, RowEntries);
    forall k | 0 <= k < |es|
      ensures HasType(EntryKeys(es)[k], col.ty.key) && HasType(EntryItems(es)[k], col.ty.item)
    {
      ConcatMapMember(col.data, RowEntries, es[k]);
      var r :| 0 <= r < |col.data| && es[k] in RowEntries(col.data[r]);
      assert HasType(col.data[r], col.ty);
      var j :| 0 <= j < |RowEntries(col.data[r])| && RowEntries(col.data[r])[j] == es[k];
    }
  }

  /** The keys and values columns have equal length: the number of entries over all rows. */
  lemma MapFlattenLength(col: ChunkedArray)
    requires col.ty.Map?
    ensures |MapArrays(col)[0].data| == |MapArrays(col)[1].data| == TotalLength(col.data, RowEntries)
  {
    ConcatMapLength(col.data, RowEntries);
  }

  /** Row-then-entry order: entry `j` of row `r` sits, as a key and as a value, right after the entries of the earlier rows. */
  lemma MapFlattenOrder(col: ChunkedArray, r: nat, j: nat)
    requires col.ty.Map? && r < |col.data| && j < |RowEntries(col.data[r])|
    ensures var o := |ConcatMap(col.data[..r], RowEntries)| + j;
            o < |MapArrays(col)[0].data| &&
            MapArrays(col)[0].data[o] == RowEntries(col.data[r])[j].key &&
            MapArrays(col)[1].data[o] == RowEntries(col.data[r])[j].item
  {
    ConcatMapIndex(col.data, RowEntries, r, j);
  }

  /** A null map row contributes nothing: removing it leaves the keys and values columns as they are. */
  lemma MapFlattenNullRow(col: ChunkedArray, r: nat)
    requires col.ty.Map? && r < |col.data| && col.data[r] == Null
    ensures MapArrays(ChunkedArray(col.ty, col.data[..r] + col.data[r + 1..])) == MapArrays(col)
  {
    ConcatMapDropEmpty(col.data, r, RowEntries);
  }

  /** Map column names: `keys` and `values`, under the composite `parent.` prefix when asked for. */
  lemma MapNaming(name: string, composite: bool)
    ensures composite ==> MapNames(name, composite) == [Composite(name, "keys"), Composite(name, "values")]
    ensures !composite ==> MapNames(name, composite) == ["keys", "values"]
  {
    assert "" + "keys" == "keys" && "" + "values" == "values";
  }

  /**
   * Every array a field writes fits its type, and is either the field's own column or strictly
   * shallower than it; without `keep`, a nested field's own column is not among them.
   */
  lemma FieldWritesShape(t: Table, i: nat, composite: bool, keep: bool)
    requires AllTyped(t) && i < |t|
    requires FieldWrites(t, i, composite, keep).Success?
    ensures forall p :: p in FieldWrites(t, i, composite, keep).value ==> Typed(p.1)
    ensures forall p :: p in FieldWrites(t, i, composite, keep).value ==>
              p.1 == t[i].arr || Depth(p.1.ty) < Depth(t[i].arr.ty)
    ensures !keep && IsNested(t[i].arr.ty) ==>
              forall p :: p in FieldWrites(t, i, composite, keep).value ==> Depth(p.1.ty) < Depth(t[i].arr.ty)
  {
    ColumnNamedFound(t, t[i].name);
    var fw := FieldWrites(t, i, composite, keep).value;
    var copy := CopyWrites(t, i, keep).value;
    var expansion := ExpansionWrites(t, i, composite).value;
    assert fw == copy + expansion;
    ExpansionShape(t, i, composite);
    assert Typed(t[i].arr);
  }

  /** Every array of a field's expansion fits its type and is strictly shallower than the field. */
  lemma ExpansionShape(t: Table, i: nat, composite: bool)
    requires AllTyped(t) && i < |t|
    requires ExpansionWrites(t, i, composite).Success?
    ensures forall p :: p in ExpansionWrites(t, i, composite).value ==> Typed(p.1) && Depth(p.1.ty) < Depth(t[i].arr.ty)
  {
    ColumnNamedFound(t, t[i].name);
    var ty := t[i].arr.ty;
    var col := t[i].arr;
    var expansion := ExpansionWrites(t, i, composite).value;
    DepthFacts(ty);
    assert Typed(col);
    forall p | p in expansion
      ensures Typed(p.1) && Depth(p.1.ty) < Depth(ty)
    {
      var j :| 0 <= j < |expansion| && expansion[j] == p;
      if ty.Struct? {
        assert p.1 == StructChildren(col)[j] == StructChild(col, j);
        StructChildTyped(col, j);
      } else if ty.List? {
        ListFlattenTyped(col);
      } else {
        MapArraysTyped(col);
        assert p.1 == MapArrays(col)[j];
      }
    }
  }

  /** The writes of field `i` measured against the whole table's depth. */
  lemma FieldWritesBound(t: Table, i: nat, composite: bool, keep: bool)
    requires AllTyped(t) && i < |t|
    requires FieldWrites(t, i, composite, keep).Success?
    ensures forall p :: p in FieldWrites(t, i, composite, keep).value ==> Typed(p.1) && Depth(p.1.ty) <= MaxDepth(t)
    ensures !keep && MaxDepth(t) > 0 ==>
              forall p :: p in FieldWrites(t, i, composite, keep).value ==> Depth(p.1.ty) < MaxDepth(t)
  {
    FieldWritesShape(t, i, composite, keep);
    HasNestedIffDeep(t);
    DepthFacts(t[i].arr.ty);
    assert Typed(t[i].arr);
    if !keep && !IsNested(t[i].arr.ty) {
      FlatFieldCopied(t, i, composite, keep);
    }
  }

  /** An array a pass may write into a table's dict: typed, no deeper than the table, and shallower without `keep`. */
  ghost predicate FitsPass(t: Table, keep: bool, p: (string, ChunkedArray))
  {
    Typed(p.1) && Depth(p.1.ty) <= MaxDepth(t) && (!keep && MaxDepth(t) > 0 ==> Depth(p.1.ty) < MaxDepth(t))
  }

  /**
   * Every array written by the first `n` fields fits its type and is no deeper than the table;
   * without `keep` each is strictly shallower than a table that has a nested column.
   */
  lemma WritesShape(t: Table, n: nat, composite: bool, keep: bool)
    requires AllTyped(t) && n <= |t|
    requires Writes(t, n, composite, keep).Success?
    ensures forall p :: p in Writes(t, n, composite, keep).value ==> Typed(p.1) && Depth(p.1.ty) <= MaxDepth(t)
    ensures !keep && MaxDepth(t) > 0 ==>
              forall p :: p in Writes(t, n, composite, keep).value ==> Depth(p.1.ty) < MaxDepth(t)
  {
    var out := FieldWritesOf(t, composite, keep);
    forall i: nat | i < n && out(i).Success?
      ensures forall p :: p in out(i).value ==> FitsPass(t, keep, p)
    {
      FieldWritesBound(t, i, composite, keep);
    }
    CollectAll(n, out, p => FitsPass(t, keep, p));
  }

  /** A table with every column shallower than `b > 0` has depth below `b`. */
  lemma MaxDepthBelow(t: Table, b: nat)
    requires b > 0 && forall i :: 0 <= i < |t| ==> Depth(t[i].arr.ty) < b
    ensures MaxDepth(t) < b
  {
    var ds := seq(|t|, i requires 0 <= i < |t| => Depth(t[i].arr.ty));
    if ds != [] {
      var i :| 0 <= i < |ds| && ds[i] == MaxOf(ds);
    }
  }

  /**
   * One pass yields a well-formed table with unique column names, no deeper than its input;
   * without `keep` it is strictly shallower whenever the input had a nested column.
   */
  lemma PassInvariant(t: Table, composite: bool, keep: bool)
    requires AllTyped(t)
    ensures Pass(t, composite, keep).Success? ==> WellFormed(Pass(t, composite, keep).value)
    ensures Pass(t, composite, keep).Success? ==> NamesUnique(Pass(t, composite, keep).value)
    ensures Pass(t, composite, keep).Success? ==> MaxDepth(Pass(t, composite, keep).value) <= MaxDepth(t)
    ensures Pass(t, composite, keep).Success? && !keep && HasNestedColumns(t) ==>
              MaxDepth(Pass(t, composite, keep).value) < MaxDepth(t)
  {
    PassAssembly(t, composite, keep);
    if Pass(t, composite, keep).Success? {
      var ws := Writes(t, |t|, composite, keep).value;
      var out := Pass(t, composite, keep).value;
      var d := FromPairs(ws);
      BuildArraysDictWrites(t, |t|, composite, keep);
      UpdateFacts([], ws);
      assert UniqueKeys<string, ChunkedArray>([]);
      assert |out| == |d| && forall k :: 0 <= k < |out| ==> out[k] == Column(d[k].0, d[k].1);
      var m := MaxDepth(t);
      WritesShape(t, |t|, composite, keep);
      HasNestedIffDeep(t);
      forall k | 0 <= k < |out|
        ensures Typed(out[k].arr) && Depth(out[k].arr.ty) <= m
        ensures !keep && m > 0 ==> Depth(out[k].arr.ty) < m
      {
        assert ws[LastIndex(ws, out[k].name)] in ws;
      }
      if !keep && m > 0 {
        MaxDepthBelow(out, m);
      } else {
        MaxDepthBelow(out, m + 1);
      }
    }
  }

  /** Without `keep`, the writes of a nested field are all strictly shallower than it: its own column is dropped, and an unhandled nested kind writes nothing. */
  lemma NestedFieldDropped(t: Table, i: nat, composite: bool)
    requires AllTyped(t) && i < |t| && IsNested(t[i].arr.ty)
    requires FieldWrites(t, i, composite, false).Success?
    ensures forall p :: p in FieldWrites(t, i, composite, false).value ==> p.1 != t[i].arr
    ensures t[i].arr.ty.OtherNested? ==> FieldWrites(t, i, composite, false).value == []
  {
    FieldWritesShape(t, i, composite, false);
  }

  /** How a flatten loop ends: the table the flattener holds afterwards, and what the call returns or raises. */
  datatype Outcome = Outcome(held: Table, result: Result<Table, Error>)

  /**
   * `flatten_all_columns` on a set table: passes while some column is nested, stopping after the
   * first unless `recursive`. A failing pass raises before the held table is replaced. With both
   * `recursive` and `keep` the loop can run forever (KeepAndRecursiveNeverSettles), so that
   * combination is excluded, including the tables on which it does stop.
   */
  function FlattenAll(t: Table, recursive: bool, composite: bool, keep: bool): Outcome
    requires AllTyped(t) && !(recursive && keep)
    decreases MaxDepth(t)
  {
    if !HasNestedColumns(t) then Outcome(t, Success(t))
    else
      var p := Pass(t, composite, keep);
      if p.Failure? then Outcome(t, Failure(p.error))
      else if !recursive then Outcome(p.value, p)
      else
        PassInvariant(t, composite, keep);
        FlattenAll(p.value, recursive, composite, keep)
  }

  /** A successful flatten returns the table it leaves held, and a well-formed table stays well-formed. */
  lemma {:induction false} FlattenAllHeld(t: Table, recursive: bool, composite: bool, keep: bool)
    requires AllTyped(t) && !(recursive && keep)
    ensures FlattenAll(t, recursive, composite, keep).result.Success? ==>
              FlattenAll(t, recursive, composite, keep).result.value == FlattenAll(t, recursive, composite, keep).held
    ensures WellFormed(t) ==> WellFormed(FlattenAll(t, recursive, composite, keep).held)
    decreases MaxDepth(t)
  {
    if HasNestedColumns(t) {
      PassInvariant(t, composite, keep);
      var p := Pass(t, composite, keep);
      if p.Success? && recursive {
        FlattenAllHeld(p.value, recursive, composite, keep);
      }
    }
  }

  /** Recursive flattening without `keep` ends with no nested column at all. */
  lemma {:induction false} FlattenAllFlat(t: Table, composite: bool)
    requires AllTyped(t)
    ensures FlattenAll(t, true, composite, false).result.Success? ==>
              !HasNestedColumns(FlattenAll(t, true, composite, false).held)
    decreases MaxDepth(t)
  {
    if HasNestedColumns(t) {
      PassInvariant(t, composite, false);
      var p := Pass(t, composite, false);
      if p.Success? {
        FlattenAllFlat(p.value, composite);
      }
    }
  }

  /** Without `recursive` at most one pass runs: the result is the table itself or one pass over it. */
  lemma FlattenAllAtMostOnePass(t: Table, composite: bool, keep: bool)
    requires AllTyped(t)
    ensures var o := FlattenAll(t, false, composite, keep);
            o.result == (if HasNestedColumns(t) then Pass(t, composite, keep) else Success(t))
  {
  }

  /** A table without nested columns goes through no pass and comes back unchanged. */
  lemma FlattenAllNoNested(t: Table, recursive: bool, composite: bool, keep: bool)
    requires AllTyped(t) && !(recursive && keep) && !HasNestedColumns(t)
    ensures FlattenAll(t, recursive, composite, keep) == Outcome(t, Success(t))
  {
  }

  /** A recursive run over a nested table is its first pass, then the run over that pass's table. */
  lemma FlattenAllUnroll(t: Table, composite: bool, u: Table)
    requires AllTyped(t) && HasNestedColumns(t) && Pass(t, composite, false) == Success(u)
    ensures AllTyped(u)
    ensures FlattenAll(t, true, composite, false) == FlattenAll(u, true, composite, false)
  {
    PassInvariant(t, composite, false);
  }

  /** Flattening a fully flattened result again changes nothing. */
  lemma FlattenAllIdempotent(t: Table, recursive: bool, composite: bool)
    requires AllTyped(t)
    requires FlattenAll(t, true, composite, false).result.Success?
    ensures var u := FlattenAll(t, true, composite, false).held;
            AllTyped(u) && FlattenAll(u, recursive, composite, false) == Outcome(u, Success(u))
  {
    FlattenAllFlat(t, composite);
    FlattenAllTyped(t, true, composite, false);
  }

  /** Every table the loop holds fits its types. */
  lemma {:induction false} FlattenAllTyped(t: Table, recursive: bool, composite: bool, keep: bool)
    requires AllTyped(t) && !(recursive && keep)
    ensures AllTyped(FlattenAll(t, recursive, composite, keep).held)
    decreases MaxDepth(t)
  {
    if HasNestedColumns(t) {
      PassInvariant(t, composite, keep);
      var p := Pass(t, composite, keep);
      if p.Success? && recursive {
        FlattenAllTyped(p.value, recursive, composite, keep);
      }
    }
  }

  /** A struct column `s` with one Int64 sub-field `x`, and that sub-field as a column `x`; one row holding `v`. */
  function SettledTable(v: int): Table
  {
    [Column("s", ChunkedArray(Struct([Field("x", Prim(Int64))]), [Record([Scalar(v)])])),
     Column("x", ChunkedArray(Prim(Int64), [Scalar(v)]))]
  }

  /** The writes of the first field of SettledTable with `keep`: the struct column, then its sub-field. */
  lemma SettledFirstField(v: int)
    ensures AllTyped(SettledTable(v))
    ensures FieldWrites(SettledTable(v), 0, false, true) ==
              Success([("s", SettledTable(v)[0].arr), ("x", SettledTable(v)[1].arr)])
  {
    var t := SettledTable(v);
    var s, x := t[0], t[1];
    assert HasType(Record([Scalar(v)]), s.arr.ty);
    ColumnNamedCases(t, "s");
    assert ColumnNamed(t, "s") == Success(s.arr);
    assert StructChild(s.arr, 0).data == [Scalar(v)];
    assert StructChildren(s.arr) == [x.arr];
    assert GenerateSubfieldNames(FieldOf(s), false) == ["x"];
    assert StructPairs(t, 0, s.arr, false) == [("x", x.arr)];
    assert CopyWrites(t, 0, true).value == [("s", s.arr)];
    assert ExpansionWrites(t, 0, false).value == [("x", x.arr)];
    assert [("s", s.arr)] + [("x", x.arr)] == [("s", s.arr), ("x", x.arr)];
  }

  /** The writes of the second field of SettledTable: the column itself. */
  lemma SettledSecondField(v: int)
    ensures AllTyped(SettledTable(v))
    ensures FieldWrites(SettledTable(v), 1, false, true) == Success([("x", SettledTable(v)[1].arr)])
  {
    var t := SettledTable(v);
    var s, x := t[0], t[1];
    assert HasType(Record([Scalar(v)]), s.arr.ty);
    ColumnNamedCases(t, "x");
    assert ColumnNamed(t, "x") == Success(x.arr);
    assert CopyWrites(t, 1, true).value + ExpansionWrites(t, 1, false).value == [("x", x.arr)];
  }

  /** All writes of a pass over SettledTable with `keep`: `s`, then `x` twice. */
  lemma SettledWrites(v: int)
    ensures AllTyped(SettledTable(v))
    ensures Writes(SettledTable(v), 2, false, true) ==
              Success([("s", SettledTable(v)[0].arr), ("x", SettledTable(v)[1].arr), ("x", SettledTable(v)[1].arr)])
  {
    var t := SettledTable(v);
    var s, x := t[0], t[1];
    SettledFirstField(v);
    SettledSecondField(v);
    assert Writes(t, 0, false, true) == Success([]);
    assert [] + [("s", s.arr), ("x", x.arr)] == [("s", s.arr), ("x", x.arr)];
    assert Writes(t, 1, false, true) == Success([("s", s.arr), ("x", x.arr)]);
    assert [("s", s.arr), ("x", x.arr)] + [("x", x.arr)] == [("s", s.arr), ("x", x.arr), ("x", x.arr)];
  }

  /** Writing `x` a second time keeps it in place: the dict holds `s` and `x` once each. */
  lemma SettledDict(a: ChunkedArray, b: ChunkedArray)
    ensures FromPairs([("s", a), ("x", b), ("x", b)]) == [("s", a), ("x", b)]
  {
    var ws := [("s", a), ("x", b), ("x", b)];
    assert ws[..2][..1][..0] == [];
    assert ws[..2][..1] == ws[..1];
    assert Keys<string, ChunkedArray>([]) == [];
    assert Update<string, ChunkedArray>([], []) == [];
    assert FromPairs(ws[..1]) == [("s", a)];
    assert FromPairs(ws[..2]) == [("s", a), ("x", b)];
  }

  /**
   * With `keep`, SettledTable is a fixpoint of a pass that still has a nested column: the loop of
   * `flatten_all_columns` with `recursive` and `keep` never ends on it.
   */
  lemma KeepAndRecursiveNeverSettles(v: int)
    ensures AllTyped(SettledTable(v)) && HasNestedColumns(SettledTable(v))
    ensures Pass(SettledTable(v), false, true) == Success(SettledTable(v))
  {
    var t := SettledTable(v);
    var s, x := t[0], t[1];
    assert IsNested(t[0].arr.ty);
    SettledWrites(v);
    BuildArraysDictWrites(t, 2, false, true);
    SettledDict(s.arr, x.arr);
    var d := [("s", s.arr), ("x", x.arr)];
    assert BuildArraysDict(t, |t|, false, true) == Success(d);
    var built := TableFromDict(d);
    assert built.Success? && |built.value| == 2;
    assert built.value[0] == s && built.value[1] == x;
    assert built.value == t;
  }

  /** `Table.flatten()` keeps every array fitting its type. */
  lemma {:induction false} TableFlattenTyped(t: Table)
    requires AllTyped(t)
    ensures AllTyped(TableFlatten(t))
  {
    if t != [] {
      var init := t[..|t| - 1];
      TableFlattenTyped(init);
      assert Typed(t[|t| - 1].arr);
    }
  }

  /** `Table.flatten()` keeps the row count: every produced column has the rows its source column had. */
  lemma {:induction false} TableFlattenRows(t: Table, n: nat)
    requires AllTyped(t) && forall i :: 0 <= i < |t| ==> |t[i].arr.data| == n
    ensures forall k :: 0 <= k < |TableFlatten(t)| ==> |TableFlatten(t)[k].arr.data| == n
  {
    if t != [] {
      TableFlattenRows(t[..|t| - 1], n);
      assert Typed(t[|t| - 1].arr);
    }
  }

  /** Each struct level that `Table.flatten()` removes lowers the struct depth of the produced columns below a common bound. */
  lemma {:induction false} TableFlattenStructDepth(t: Table, b: nat)
    requires AllTyped(t) && b > 0 && forall i :: 0 <= i < |t| ==> StructDepth(t[i].arr.ty) <= b
    ensures forall k :: 0 <= k < |TableFlatten(t)| ==> StructDepth(TableFlatten(t)[k].arr.ty) < b
  {
    if t != [] {
      var c := t[|t| - 1];
      TableFlattenStructDepth(t[..|t| - 1], b);
      assert Typed(c.arr);
      DepthFacts(c.arr.ty);
      assert c.arr.ty.Struct? || StructDepth(c.arr.ty) == 0;
    }
  }

  /** Without struct columns `Table.flatten()` changes nothing: lists, maps and scalars stay as they are. */
  lemma {:induction false} TableFlattenNoStructs(t: Table)
    requires AllTyped(t) && !HasStructColumns(t)
    ensures TableFlatten(t) == t
  {
    if t != [] {
      var init := t[..|t| - 1];
      assert !HasStructColumns(init) by {
        forall i | 0 <= i < |init| ensures !init[i].arr.ty.Struct? {
          assert init[i] == t[i];
        }
      }
      TableFlattenNoStructs(init);
      assert !t[|t| - 1].arr.ty.Struct?;
      assert init + [t[|t| - 1]] == t;
    }
  }

  /** A table with every column's struct depth below `b > 0` has struct depth below `b`. */
  lemma MaxStructDepthBelow(t: Table, b: nat)
    requires b > 0 && forall i :: 0 <= i < |t| ==> StructDepth(t[i].arr.ty) < b
    ensures MaxStructDepth(t) < b
  {
    var ds := seq(|t|, i requires 0 <= i < |t| => StructDepth(t[i].arr.ty));
    if ds != [] {
      var i :| 0 <= i < |ds| && ds[i] == MaxOf(ds);
    }
  }

  /** `Table.flatten()` keeps a table well-formed and, when it has a struct column, lowers its struct depth. */
  lemma TableFlattenInvariant(t: Table)
    requires AllTyped(t)
    ensures AllTyped(TableFlatten(t))
    ensures Rectangular(t) ==> Rectangular(TableFlatten(t))
    ensures HasStructColumns(t) ==> MaxStructDepth(TableFlatten(t)) < MaxStructDepth(t)
  {
    var u := TableFlatten(t);
    TableFlattenTyped(t);
    if Rectangular(t) {
      TableFlattenRows(t, NumRows(t));
    }
    HasStructIffStructDeep(t);
    if HasStructColumns(t) {
      TableFlattenStructDepth(t, MaxStructDepth(t));
      MaxStructDepthBelow(u, MaxStructDepth(t));
    }
  }

  /**
   * `flatten_struct_columns` on a set table: `Table.flatten()` while some column is a struct,
   * stopping after the first pass unless `recursive`.
   */
  function FlattenStructs(t: Table, recursive: bool): Table
    requires AllTyped(t)
    decreases MaxStructDepth(t)
  {
    if !HasStructColumns(t) then t
    else
      TableFlattenInvariant(t);
      var u := TableFlatten(t);
      if !recursive then u else FlattenStructs(u, true)
  }

  /** Recursive struct flattening ends without struct columns, and keeps a well-formed table well-formed. */
  lemma {:induction false} FlattenStructsFlat(t: Table, recursive: bool)
    requires AllTyped(t)
    ensures AllTyped(FlattenStructs(t, recursive))
    ensures WellFormed(t) ==> WellFormed(FlattenStructs(t, recursive))
    ensures recursive ==> !HasStructColumns(FlattenStructs(t, recursive))
    decreases MaxStructDepth(t)
  {
    if HasStructColumns(t) {
      TableFlattenInvariant(t);
      if recursive {
        FlattenStructsFlat(TableFlatten(t), true);
      }
    }
  }

  /** Without `recursive` at most one `Table.flatten()` runs; without struct columns none does. */
  lemma FlattenStructsAtMostOnePass(t: Table)
    requires AllTyped(t)
    ensures FlattenStructs(t, false) == if HasStructColumns(t) then TableFlatten(t) else t
  {
  }

  /** Struct flattening leaves a table without struct columns, lists and maps included, untouched. */
  lemma FlattenStructsNoStructs(t: Table, recursive: bool)
    requires AllTyped(t) && !HasStructColumns(t)
    ensures FlattenStructs(t, recursive) == t
  {
  }

  /** A pass builds its table from the dict its loop filled. */
  lemma PassOfDict(t: Table, composite: bool, keep: bool, d: ArraysDict)
    requires AllTyped(t) && BuildArraysDict(t, |t|, composite, keep) == Success(d)
    ensures Pass(t, composite, keep) == TableFromDict(d)
  {
  }

  /** The writes of a pass over a one-struct-column table: the struct's pairs, the column itself dropped. */
  lemma SingleStructWrites(name: string, a: ChunkedArray)
    requires a.ty.Struct? && Typed(a)
    ensures AllTyped([Column(name, a)])
    ensures Writes([Column(name, a)], 1, true, false) == Success(StructPairs([Column(name, a)], 0, a, true))
  {
    var t := [Column(name, a)];
    ColumnNamedCases(t, name);
    assert ColumnNamed(t, name) == Success(a);
    var sp := StructPairs(t, 0, a, true);
    assert CopyWrites(t, 0, false) == Success([]);
    assert ExpansionWrites(t, 0, true) == Success(sp);
    assert FieldWrites(t, 0, true, false) == Success([] + sp);
    assert Writes(t, 0, true, false) == Success([]);
    assert [] + ([] + sp) == sp;
  }

  /** With distinct sub-field names, the dict of that pass is exactly the struct's pairs. */
  lemma SingleStructDict(name: string, a: ChunkedArray)
    requires a.ty.Struct? && Typed(a)
    requires forall i, j :: 0 <= i < j < |a.ty.fields| ==> a.ty.fields[i].name != a.ty.fields[j].name
    ensures AllTyped([Column(name, a)])
    ensures BuildArraysDict([Column(name, a)], 1, true, false) == Success(StructPairs([Column(name, a)], 0, a, true))
  {
    var t := [Column(name, a)];
    var sp := StructPairs(t, 0, a, true);
    SingleStructWrites(name, a);
    BuildArraysDictWrites(t, 1, true, false);
    SubfieldNaming(FieldOf(t[0]), true);
    assert forall j :: 0 <= j < |sp| ==> sp[j].0 == GenerateSubfieldNames(FieldOf(t[0]), true)[j];
    FromPairsDistinct(sp);
  }

  /** The `parent.sub` columns of a struct column, one per sub-field in order. */
  function CompositeStructColumns(name: string, a: ChunkedArray): (cs: Table)
    requires a.ty.Struct? && Typed(a)
    ensures |cs| == |a.ty.fields|
  {
    seq(|a.ty.fields|, j requires 0 <= j < |a.ty.fields| => Column(Composite(name, a.ty.fields[j].name), StructChild(a, j)))
  }

  /**
   * A pass with composite names over a table of one struct column whose sub-fields have distinct
   * names: one `parent.sub` column per sub-field, holding that sub-field's array.
   */
  lemma SingleStructPass(name: string, a: ChunkedArray)
    requires a.ty.Struct? && Typed(a)
    requires forall i, j :: 0 <= i < j < |a.ty.fields| ==> a.ty.fields[i].name != a.ty.fields[j].name
    ensures AllTyped([Column(name, a)])
    ensures Pass([Column(name, a)], true, false) == Success(CompositeStructColumns(name, a))
  {
    var t := [Column(name, a)];
    var fs := a.ty.fields;
    var sp := StructPairs(t, 0, a, true);
    SingleStructDict(name, a);
    PassOfDict(t, true, false, sp);
    var expected := CompositeStructColumns(name, a);
    forall j | 0 <= j < |sp| ensures |sp[j].1.data| == |a.data| && Column(sp[j].0, sp[j].1) == expected[j] {
      assert sp[j].1 == StructChild(a, j);
    }
    var built := TableFromDict(sp);
    assert built.Success?;
    assert built.value == expected;
  }

  /** The writes of the first `n + 1` fields: those of the first `n`, then field `n`'s. */
  lemma WritesSnoc(t: Table, n: nat, composite: bool, keep: bool, ws: ArraysDict, fw: ArraysDict)
    requires AllTyped(t) && n < |t|
    requires Writes(t, n, composite, keep) == Success(ws) && FieldWrites(t, n, composite, keep) == Success(fw)
    ensures Writes(t, n + 1, composite, keep) == Success(ws + fw)
  {
    assert FieldWritesOf(t, composite, keep)(n) == Success(fw);
  }

  /** In a table with unique names, a non-nested field writes itself under its own name. */
  lemma FlatFieldWrites(t: Table, i: nat, composite: bool, keep: bool)
    requires AllTyped(t) && NamesUnique(t) && i < |t| && !IsNested(t[i].arr.ty)
    ensures FieldWrites(t, i, composite, keep) == Success([(t[i].name, t[i].arr)])
  {
    ColumnNamedUnique(t, i);
    assert CopyWrites(t, i, keep) == Success([(t[i].name, t[i].arr)]);
    assert ExpansionWrites(t, i, composite) == Success([]);
    assert [(t[i].name, t[i].arr)] + [] == [(t[i].name, t[i].arr)];
  }

  /** In a table with unique names, a struct field dropped after the pass writes only its sub-field pairs. */
  lemma StructFieldWrites(t: Table, i: nat, composite: bool)
    requires AllTyped(t) && NamesUnique(t) && i < |t| && t[i].arr.ty.Struct?
    ensures FieldWrites(t, i, composite, false) == Success(StructPairs(t, i, t[i].arr, composite))
  {
    ColumnNamedUnique(t, i);
    assert Typed(t[i].arr);
    var sp := StructPairs(t, i, t[i].arr, composite);
    assert CopyWrites(t, i, false) == Success([]);
    assert ExpansionWrites(t, i, composite) == Success(sp);
    assert [] + sp == sp;
  }

  /** In a table with unique names, a list field dropped after the pass writes its flattened list under its own name. */
  lemma ListFieldWrites(t: Table, i: nat, composite: bool)
    requires AllTyped(t) && NamesUnique(t) && i < |t| && t[i].arr.ty.List?
    ensures FieldWrites(t, i, composite, false) == Success([(t[i].name, ListFlatten(t[i].arr))])
  {
    ColumnNamedUnique(t, i);
    var w := [(t[i].name, ListFlatten(t[i].arr))];
    assert CopyWrites(t, i, false) == Success([]);
    assert ExpansionWrites(t, i, composite) == Success(w);
    assert [] + w == w;
  }

  /** In a table with unique names, a kept list field writes itself, then its flattened list, under its own name. */
  lemma KeptListFieldWrites(t: Table, i: nat, composite: bool)
    requires AllTyped(t) && NamesUnique(t) && i < |t| && t[i].arr.ty.List?
    ensures FieldWrites(t, i, composite, true) == Success([(t[i].name, t[i].arr), (t[i].name, ListFlatten(t[i].arr))])
  {
    ColumnNamedUnique(t, i);
    assert CopyWrites(t, i, true) == Success([(t[i].name, t[i].arr)]);
    assert ExpansionWrites(t, i, composite) == Success([(t[i].name, ListFlatten(t[i].arr))]);
    assert [(t[i].name, t[i].arr)] + [(t[i].name, ListFlatten(t[i].arr))] ==
           [(t[i].name, t[i].arr), (t[i].name, ListFlatten(t[i].arr))];
  }

  /**
   * A pass whose writes have distinct names and equal lengths builds one column per write, in
   * write order: no name is overwritten and `pa.table` accepts the dict.
   */
  lemma PassOfDistinctWrites(t: Table, composite: bool, keep: bool, ws: ArraysDict, rows: nat)
    requires AllTyped(t) && Writes(t, |t|, composite, keep) == Success(ws) && UniqueKeys(ws)
    requires forall j :: 0 <= j < |ws| ==> |ws[j].1.data| == rows
    ensures Pass(t, composite, keep) == Success(seq(|ws|, j requires 0 <= j < |ws| => Column(ws[j].0, ws[j].1)))
  {
    BuildArraysDictWrites(t, |t|, composite, keep);
    FromPairsDistinct(ws);
    PassOfDict(t, composite, keep, ws);
    var built := TableFromDict(ws);
    assert built.Success?;
    assert built.value == seq(|ws|, j requires 0 <= j < |ws| => Column(ws[j].0, ws[j].1));
  }
}

/**
 * The scenarios of the repository's sanity tests, stated over tables whose cell values are
 * parameters: each lemma proves what the test asserts about the flattened table, for every choice
 * of the cells.
 */
module SanityTests {
  import opened Wrappers
  import opened Seqs
  import opened OrderedDict
  import opened Arrow
  import opened Flattening

  /** A one-column table `map_array` of string-to-Int64 maps, rows `[(x, p), (y, q)]` and `[(a, r), (b, w)]`. */
  function MapTable(x: int, y: int, a: int, b: int, p: int, q: int, r: int, w: int): Table
  {
    [Column("map_array", ChunkedArray(Map(Prim(Utf8), Prim(Int64)),
      [Entries([Entry(Scalar(x), Scalar(p)), Entry(Scalar(y), Scalar(q))]),
       Entries([Entry(Scalar(a), Scalar(r)), Entry(Scalar(b), Scalar(w))])]))]
  }

  /** The entries of MapTable's column, row after row. */
  lemma MapTableEntries(x: int, y: int, a: int, b: int, p: int, q: int, r: int, w: int)
    ensures var col := MapTable(x, y, a, b, p, q, r, w)[0].arr;
            MapArrays(col) == [ChunkedArray(Prim(Utf8), [Scalar(x), Scalar(y), Scalar(a), Scalar(b)]),
                               ChunkedArray(Prim(Int64), [Scalar(p), Scalar(q), Scalar(r), Scalar(w)])]
  {
    var col := MapTable(x, y, a, b, p, q, r, w)[0].arr;
    var rows := col.data;
    assert rows[..1][..0] == [] && rows[..1] == [rows[0]];
    assert ConcatMap(rows[..1][..0], RowEntries) == [];
    assert ConcatMap(rows[..1], RowEntries) == RowEntries(rows[0]) == rows[0].pairs;
    var es := ConcatMap(rows, RowEntries);
    assert es == ConcatMap(rows[..1], RowEntries) + RowEntries(rows[1]);
    assert es == rows[0].pairs + rows[1].pairs;
    assert EntryKeys(es) == [Scalar(x), Scalar(y), Scalar(a), Scalar(b)];
    assert EntryItems(es) == [Scalar(p), Scalar(q), Scalar(r), Scalar(w)];
  }

  lemma MapTableTyped(x: int, y: int, a: int, b: int, p: int, q: int, r: int, w: int)
    ensures AllTyped(MapTable(x, y, a, b, p, q, r, w))
  {
    var col := MapTable(x, y, a, b, p, q, r, w)[0].arr;
    ScalarEntriesTyped([Entry(Scalar(x), Scalar(p)), Entry(Scalar(y), Scalar(q))], Utf8, Int64);
    ScalarEntriesTyped([Entry(Scalar(a), Scalar(r)), Entry(Scalar(b), Scalar(w))], Utf8, Int64);
    assert HasType(col.data[0], col.ty) && HasType(col.data[1], col.ty);
  }

  /** A map cell whose keys and items are all scalars fits a map of scalar types. */
  lemma ScalarEntriesTyped(pairs: seq<Entry>, key: ScalarKind, item: ScalarKind)
    requires forall i :: 0 <= i < |pairs| ==> pairs[i].key.Scalar? && pairs[i].item.Scalar?
    ensures HasType(Entries(pairs), Map(Prim(key), Prim(item)))
  {
    forall i | 0 <= i < |pairs|
      ensures pairs[i].key != Null && HasType(pairs[i].key, Prim(key)) && HasType(pairs[i].item, Prim(item))
    {
    }
  }

  /** A dict built from two pairs with different keys holds both pairs in order. */
  lemma TwoKeysDict(k1: string, k2: string, a: ChunkedArray, b: ChunkedArray)
    requires k1 != k2
    ensures FromPairs([(k1, a), (k2, b)]) == [(k1, a), (k2, b)]
  {
    var ws := [(k1, a), (k2, b)];
    assert Keys<string, ChunkedArray>([]) == [];
    assert ws[..1][..0] == [];
    assert Update<string, ChunkedArray>([], []) == [];
    assert FromPairs(ws[..1]) == [ws[0]];
  }

  /** The writes of a pass over MapTable with composite names: the keys column, then the values column. */
  lemma MapTableWrites(x: int, y: int, a: int, b: int, p: int, q: int, r: int, w: int)
    ensures AllTyped(MapTable(x, y, a, b, p, q, r, w))
    ensures Writes(MapTable(x, y, a, b, p, q, r, w), 1, true, false) ==
              Success([("map_array.keys", ChunkedArray(Prim(Utf8), [Scalar(x), Scalar(y), Scalar(a), Scalar(b)])),
                       ("map_array.values", ChunkedArray(Prim(Int64), [Scalar(p), Scalar(q), Scalar(r), Scalar(w)]))])
  {
    var t := MapTable(x, y, a, b, p, q, r, w);
    var col := t[0].arr;
    var keys := ChunkedArray(Prim(Utf8), [Scalar(x), Scalar(y), Scalar(a), Scalar(b)]);
    var values := ChunkedArray(Prim(Int64), [Scalar(p), Scalar(q), Scalar(r), Scalar(w)]);
    MapTableTyped(x, y, a, b, p, q, r, w);
    MapTableEntries(x, y, a, b, p, q, r, w);
    ColumnNamedCases(t, "map_array");
    assert ColumnNamed(t, "map_array") == Success(col);
    var ws := [("map_array.keys", keys), ("map_array.values", values)];
    assert "map_array" + "." == "map_array.";
    assert "map_array." + "keys" == "map_array.keys" && "map_array." + "values" == "map_array.values";
    assert MapNames("map_array", true) == ["map_array.keys", "map_array.values"];
    assert Zip(MapNames("map_array", true), MapArrays(col)) == ws;
    assert ExpansionWrites(t, 0, true) == Success(ws);
    assert FieldWrites(t, 0, true, false) == Success([] + ws);
    assert [] + ws == ws;
    assert Writes(t, 0, true, false) == Success([]);
  }

  /** One pass over MapTable with composite names yields exactly the keys and values columns. */
  lemma MapTablePass(x: int, y: int, a: int, b: int, p: int, q: int, r: int, w: int)
    ensures AllTyped(MapTable(x, y, a, b, p, q, r, w))
    ensures Pass(MapTable(x, y, a, b, p, q, r, w), true, false) ==
              Success([Column("map_array.keys", ChunkedArray(Prim(Utf8), [Scalar(x), Scalar(y), Scalar(a), Scalar(b)])),
                       Column("map_array.values", ChunkedArray(Prim(Int64), [Scalar(p), Scalar(q), Scalar(r), Scalar(w)]))])
  {
    var t := MapTable(x, y, a, b, p, q, r, w);
    var keys := ChunkedArray(Prim(Utf8), [Scalar(x), Scalar(y), Scalar(a), Scalar(b)]);
    var values := ChunkedArray(Prim(Int64), [Scalar(p), Scalar(q), Scalar(r), Scalar(w)]);
    var ws := [("map_array.keys", keys), ("map_array.values", values)];
    MapTableWrites(x, y, a, b, p, q, r, w);
    BuildArraysDictWrites(t, 1, true, false);
    TwoKeysDict("map_array.keys", "map_array.values", keys, values);
    assert BuildArraysDict(t, |t|, true, false) == Success(ws);
    var out := [Column("map_array.keys", keys), Column("map_array.values", values)];
    var built := TableFromDict(ws);
    assert built.Success? && |built.value| == 2;
    assert built.value[0] == out[0] && built.value[1] == out[1];
    assert built.value == out;
  }

  /**
   * Flattening MapTable recursively with composite names gives `map_array.keys` holding x, y, a, b and
   * `map_array.values` holding p, q, r, w, after one pass.
   */
  lemma MapTableFlattens(x: int, y: int, a: int, b: int, p: int, q: int, r: int, w: int)
    ensures AllTyped(MapTable(x, y, a, b, p, q, r, w))
    ensures FlattenAll(MapTable(x, y, a, b, p, q, r, w), true, true, false).result ==
              Success([Column("map_array.keys", ChunkedArray(Prim(Utf8), [Scalar(x), Scalar(y), Scalar(a), Scalar(b)])),
                       Column("map_array.values", ChunkedArray(Prim(Int64), [Scalar(p), Scalar(q), Scalar(r), Scalar(w)]))])
  {
    var t := MapTable(x, y, a, b, p, q, r, w);
    MapTablePass(x, y, a, b, p, q, r, w);
    var out := Pass(t, true, false).value;
    assert IsNested(t[0].arr.ty);
    PassInvariant(t, true, false);
    assert !IsNested(out[0].arr.ty) && !IsNested(out[1].arr.ty);
    assert !HasNestedColumns(out);
  }

  /** A list column `simple_list` and a struct column `person` with sub-fields `name` and `age`, two rows each. */
  function ListAndPersonTable(l1: int, l2: int, n1: int, n2: int, a1: int, a2: int): Table
  {
    [Column("simple_list", ChunkedArray(List(Prim(Int64)), [Items([Scalar(l1)]), Items([Scalar(l2)])])),
     Column("person", ChunkedArray(Struct([Field("name", Prim(Utf8)), Field("age", Prim(Int64))]),
       [Record([Scalar(n1), Scalar(a1)]), Record([Scalar(n2), Scalar(a2)])]))]
  }

  lemma ListAndPersonTyped(l1: int, l2: int, n1: int, n2: int, a1: int, a2: int)
    ensures AllTyped(ListAndPersonTable(l1, l2, n1, n2, a1, a2))
  {
    var t := ListAndPersonTable(l1, l2, n1, n2, a1, a2);
    forall k | 0 <= k < 2 ensures HasType(t[0].arr.data[k], t[0].arr.ty) && HasType(t[1].arr.data[k], t[1].arr.ty) {
      assert forall i :: 0 <= i < |t[0].arr.data[k].elems| ==> t[0].arr.data[k].elems[i].Scalar?;
      assert forall i :: 0 <= i < |t[1].arr.data[k].slots| ==> t[1].arr.data[k].slots[i].Scalar?;
    }
  }

  /**
   * Recursive struct flattening of ListAndPersonTable: the list column stays as it is, and `person`
   * becomes `person.name` and `person.age` holding the sub-field values row by row.
   */
  lemma ListAndPersonStructsFlatten(l1: int, l2: int, n1: int, n2: int, a1: int, a2: int)
    ensures AllTyped(ListAndPersonTable(l1, l2, n1, n2, a1, a2))
    ensures var t := ListAndPersonTable(l1, l2, n1, n2, a1, a2);
            FlattenStructs(t, true) ==
              [t[0],
               Column("person.name", ChunkedArray(Prim(Utf8), [Scalar(n1), Scalar(n2)])),
               Column("person.age", ChunkedArray(Prim(Int64), [Scalar(a1), Scalar(a2)]))]
  {
    var t := ListAndPersonTable(l1, l2, n1, n2, a1, a2);
    ListAndPersonTyped(l1, l2, n1, n2, a1, a2);
    var person := t[1];
    var name := Column("person.name", ChunkedArray(Prim(Utf8), [Scalar(n1), Scalar(n2)]));
    var age := Column("person.age", ChunkedArray(Prim(Int64), [Scalar(a1), Scalar(a2)]));
    assert Composite("person", "name") == "person.name" && Composite("person", "age") == "person.age";
    assert StructChild(person.arr, 0).data == [Scalar(n1), Scalar(n2)];
    assert StructChild(person.arr, 1).data == [Scalar(a1), Scalar(a2)];
    assert ColumnFlatten(person) == [name, age];
    assert ColumnFlatten(t[0]) == [t[0]];
    assert t[..1][..0] == [] && t[..1] == [t[0]];
    assert TableFlatten(t[..1]) == [t[0]];
    var u := [t[0], name, age];
    assert TableFlatten(t) == u;
    assert t[1].arr.ty.Struct?;
    assert !HasStructColumns(u);
    TableFlattenTyped(t);
  }


  /** The struct type of `person`: a string `name` and an Int64 `age`. */
  function PersonType(): Type
  {
    Struct([Field("name", Prim(Utf8)), Field("age", Prim(Int64))])
  }

  /** `complicated_person`: a struct column whose one sub-field `student` is a person; two rows. */
  function ComplicatedPersonTable(n1: int, a1: int, n2: int, a2: int): Table
  {
    [Column("complicated_person", ChunkedArray(Struct([Field("student", PersonType())]),
      [Record([Record([Scalar(n1), Scalar(a1)])]), Record([Record([Scalar(n2), Scalar(a2)])])]))]
  }

  /** The table after the first pass: the lifted `complicated_person.student` person column. */
  function StudentTable(n1: int, a1: int, n2: int, a2: int): Table
  {
    [Column("complicated_person.student",
      ChunkedArray(PersonType(), [Record([Scalar(n1), Scalar(a1)]), Record([Scalar(n2), Scalar(a2)])]))]
  }

  /** The table after the second pass: the student's name and age columns. */
  function StudentFlatTable(n1: int, a1: int, n2: int, a2: int): Table
  {
    [Column("complicated_person.student.name", ChunkedArray(Prim(Utf8), [Scalar(n1), Scalar(n2)])),
     Column("complicated_person.student.age", ChunkedArray(Prim(Int64), [Scalar(a1), Scalar(a2)]))]
  }

  /** The student's flat table is typed and has no nested column. */
  lemma StudentFlatShape(n1: int, a1: int, n2: int, a2: int)
    ensures AllTyped(StudentFlatTable(n1, a1, n2, a2)) && !HasNestedColumns(StudentFlatTable(n1, a1, n2, a2))
  {
    var v := StudentFlatTable(n1, a1, n2, a2);
    assert !IsNested(v[0].arr.ty) && !IsNested(v[1].arr.ty);
  }

  lemma ComplicatedPersonNames()
    ensures Composite("complicated_person", "student") == "complicated_person.student"
    ensures Composite("complicated_person.student", "name") == "complicated_person.student.name"
    ensures Composite("complicated_person.student", "age") == "complicated_person.student.age"
  {
  }

  /** The first pass lifts `student` out under the composite name `complicated_person.student`. */
  lemma ComplicatedPersonFirstPass(n1: int, a1: int, n2: int, a2: int)
    ensures AllTyped(ComplicatedPersonTable(n1, a1, n2, a2))
    ensures Pass(ComplicatedPersonTable(n1, a1, n2, a2), true, false) == Success(StudentTable(n1, a1, n2, a2))
  {
    var t := ComplicatedPersonTable(n1, a1, n2, a2);
    var a := t[0].arr;
    forall r | 0 <= r < |a.data| ensures HasType(a.data[r], a.ty) {
      var inner := a.data[r].slots[0];
      assert HasType(inner, PersonType()) by {
        assert forall i :: 0 <= i < |inner.slots| ==> inner.slots[i].Scalar?;
      }
    }
    SingleStructPass("complicated_person", a);
    ComplicatedPersonNames();
    assert StructChild(a, 0).data == [Record([Scalar(n1), Scalar(a1)]), Record([Scalar(n2), Scalar(a2)])];
    assert CompositeStructColumns("complicated_person", a) ==
             [Column("complicated_person.student",
               ChunkedArray(PersonType(), [Record([Scalar(n1), Scalar(a1)]), Record([Scalar(n2), Scalar(a2)])]))];
  }

  /** The second pass splits `complicated_person.student` into its `.name` and `.age` columns. */
  lemma ComplicatedPersonSecondPass(n1: int, a1: int, n2: int, a2: int)
    ensures AllTyped(StudentTable(n1, a1, n2, a2))
    ensures Pass(StudentTable(n1, a1, n2, a2), true, false) == Success(StudentFlatTable(n1, a1, n2, a2))
  {
    var a := ChunkedArray(PersonType(), [Record([Scalar(n1), Scalar(a1)]), Record([Scalar(n2), Scalar(a2)])]);
    PersonColumns("complicated_person.student", n1, a1, n2, a2);
    SingleStructPass("complicated_person.student", a);
    ComplicatedPersonNames();
  }

  /** The composite columns of a two-row person array: `.name` and `.age`, row values in order. */
  lemma PersonColumns(name: string, n1: int, a1: int, n2: int, a2: int)
    ensures var a := ChunkedArray(PersonType(), [Record([Scalar(n1), Scalar(a1)]), Record([Scalar(n2), Scalar(a2)])]);
            Typed(a) &&
            CompositeStructColumns(name, a) ==
              [Column(Composite(name, "name"), ChunkedArray(Prim(Utf8), [Scalar(n1), Scalar(n2)])),
               Column(Composite(name, "age"), ChunkedArray(Prim(Int64), [Scalar(a1), Scalar(a2)]))]
  {
    var a := ChunkedArray(PersonType(), [Record([Scalar(n1), Scalar(a1)]), Record([Scalar(n2), Scalar(a2)])]);
    assert HasType(a.data[0], a.ty) && HasType(a.data[1], a.ty);
    assert StructChild(a, 0).data == [Scalar(n1), Scalar(n2)];
    assert StructChild(a, 1).data == [Scalar(a1), Scalar(a2)];
  }

  /**
   * `complicated_person` needs two passes: one non-recursive pass still leaves a nested column,
   * and the recursive loop ends with `complicated_person.student.name` and `.age`.
   */
  lemma ComplicatedPersonFlattens(n1: int, a1: int, n2: int, a2: int)
    ensures AllTyped(ComplicatedPersonTable(n1, a1, n2, a2))
    ensures var o := FlattenAll(ComplicatedPersonTable(n1, a1, n2, a2), false, true, false);
            o.result.Success? && HasNestedColumns(o.result.value)
    ensures FlattenAll(ComplicatedPersonTable(n1, a1, n2, a2), true, true, false).result ==
              Success(StudentFlatTable(n1, a1, n2, a2))
  {
    var t := ComplicatedPersonTable(n1, a1, n2, a2);
    var u := StudentTable(n1, a1, n2, a2);
    var v := StudentFlatTable(n1, a1, n2, a2);
    ComplicatedPersonFirstPass(n1, a1, n2, a2);
    ComplicatedPersonSecondPass(n1, a1, n2, a2);
    StudentFlatShape(n1, a1, n2, a2);
    assert IsNested(t[0].arr.ty) && IsNested(u[0].arr.ty);
    FlattenAllUnroll(t, true, u);
    FlattenAllUnroll(u, true, v);
    FlattenAllNoNested(v, true, true, false);
  }


  /* ---------- test_flatten_table_with_composite_keys, on its whole table ---------- */

  /** A two-row Int64 array. */
  function Int64s(x: int, y: int): ChunkedArray
  {
    ChunkedArray(Prim(Int64), [Scalar(x), Scalar(y)])
  }

  /** A two-row string array. */
  function Strings(x: int, y: int): ChunkedArray
  {
    ChunkedArray(Prim(Utf8), [Scalar(x), Scalar(y)])
  }

  /** A two-row person array: `{name: n1, age: a1}`, `{name: n2, age: a2}`. */
  function PersonArray(n1: int, a1: int, n2: int, a2: int): ChunkedArray
  {
    ChunkedArray(PersonType(), [Record([Scalar(n1), Scalar(a1)]), Record([Scalar(n2), Scalar(a2)])])
  }

  /** The two-row list array `[[l1], [l2]]`. */
  function SimpleList(l1: int, l2: int): ChunkedArray
  {
    ChunkedArray(List(Prim(Int64)), [Items([Scalar(l1)]), Items([Scalar(l2)])])
  }

  /** The test's table: `id`, `person`, `complicated_person` (a struct whose `student` is a person) and `simple_list`. */
  function CompositeKeysTable(i1: int, i2: int, n1: int, a1: int, n2: int, a2: int, l1: int, l2: int): Table
  {
    [Column("id", Int64s(i1, i2)),
     Column("person", PersonArray(n1, a1, n2, a2)),
     ComplicatedPersonTable(n1, a1, n2, a2)[0],
     Column("simple_list", SimpleList(l1, l2))]
  }

  /** The table after one pass: the flat `id`, the person's two columns, the lifted `student`, the flattened list. */
  function CompositeKeysFirstPassTable(i1: int, i2: int, n1: int, a1: int, n2: int, a2: int, l1: int, l2: int): Table
  {
    [Column("id", Int64s(i1, i2)),
     Column("person.name", Strings(n1, n2)),
     Column("person.age", Int64s(a1, a2)),
     Column("complicated_person.student", PersonArray(n1, a1, n2, a2)),
     Column("simple_list", Int64s(l1, l2))]
  }

  /** The flat table the test inspects. */
  function CompositeKeysFlatTable(i1: int, i2: int, n1: int, a1: int, n2: int, a2: int, l1: int, l2: int): Table
  {
    [Column("id", Int64s(i1, i2)),
     Column("person.name", Strings(n1, n2)),
     Column("person.age", Int64s(a1, a2)),
     Column("complicated_person.student.name", Strings(n1, n2)),
     Column("complicated_person.student.age", Int64s(a1, a2)),
     Column("simple_list", Int64s(l1, l2))]
  }

  /** The columns of a table, back as (name, array) pairs. */
  function PairsOf(t: Table): (ws: ArraysDict)
    ensures |ws| == |t|
  {
    seq(|t|, j requires 0 <= j < |t| => (t[j].name, t[j].arr))
  }

  lemma SimpleListTyped(l1: int, l2: int)
    ensures Typed(SimpleList(l1, l2))
  {
    var a := SimpleList(l1, l2);
    forall r | 0 <= r < 2 ensures HasType(a.data[r], a.ty) {
      assert forall k :: 0 <= k < |a.data[r].elems| ==> a.data[r].elems[k].Scalar?;
    }
  }

  lemma PersonTyped(n1: int, a1: int, n2: int, a2: int)
    ensures Typed(PersonArray(n1, a1, n2, a2))
  {
    var a := PersonArray(n1, a1, n2, a2);
    assert HasType(a.data[0], a.ty) && HasType(a.data[1], a.ty);
  }

  lemma ComplicatedPersonTyped(n1: int, a1: int, n2: int, a2: int)
    ensures Typed(ComplicatedPersonTable(n1, a1, n2, a2)[0].arr)
  {
    var a := ComplicatedPersonTable(n1, a1, n2, a2)[0].arr;
    PersonTyped(n1, a1, n2, a2);
    forall r | 0 <= r < |a.data| ensures HasType(a.data[r], a.ty) {
      assert HasType(a.data[r].slots[0], PersonType()) by {
        assert a.data[r].slots[0] == PersonArray(n1, a1, n2, a2).data[r];
      }
    }
  }

  lemma CompositeKeysTyped(i1: int, i2: int, n1: int, a1: int, n2: int, a2: int, l1: int, l2: int)
    ensures AllTyped(CompositeKeysTable(i1, i2, n1, a1, n2, a2, l1, l2))
  {
    var t := CompositeKeysTable(i1, i2, n1, a1, n2, a2, l1, l2);
    ComplicatedPersonTyped(n1, a1, n2, a2);
    PersonTyped(n1, a1, n2, a2);
    SimpleListTyped(l1, l2);
    assert Typed(t[0].arr) && Typed(t[1].arr) && Typed(t[2].arr) && Typed(t[3].arr);
  }

  lemma CompositeKeysNames(i1: int, i2: int, n1: int, a1: int, n2: int, a2: int, l1: int, l2: int)
    ensures NamesUnique(CompositeKeysTable(i1, i2, n1, a1, n2, a2, l1, l2))
  {
  }

  lemma FirstPassTyped(i1: int, i2: int, n1: int, a1: int, n2: int, a2: int, l1: int, l2: int)
    ensures AllTyped(CompositeKeysFirstPassTable(i1, i2, n1, a1, n2, a2, l1, l2))
  {
    PersonTyped(n1, a1, n2, a2);
  }

  /** The first-pass table has distinct names, two rows in every column, and a nested `student` column. */
  lemma FirstPassShape(i1: int, i2: int, n1: int, a1: int, n2: int, a2: int, l1: int, l2: int)
    ensures var u := CompositeKeysFirstPassTable(i1, i2, n1, a1, n2, a2, l1, l2);
            NamesUnique(u) && (forall j :: 0 <= j < |u| ==> |u[j].arr.data| == 2) && HasNestedColumns(u)
  {
    var u := CompositeKeysFirstPassTable(i1, i2, n1, a1, n2, a2, l1, l2);
    assert IsNested(u[3].arr.ty);
  }

  /** The flat table is typed, has distinct names and two rows in every column, and no nested column. */
  lemma FlatTableShape(i1: int, i2: int, n1: int, a1: int, n2: int, a2: int, l1: int, l2: int)
    ensures var v := CompositeKeysFlatTable(i1, i2, n1, a1, n2, a2, l1, l2);
            AllTyped(v) && NamesUnique(v) && (forall j :: 0 <= j < |v| ==> |v[j].arr.data| == 2) && !HasNestedColumns(v)
  {
    var v := CompositeKeysFlatTable(i1, i2, n1, a1, n2, a2, l1, l2);
    forall j | 0 <= j < |v| ensures Typed(v[j].arr) && !IsNested(v[j].arr.ty) {
      assert v[j].arr.ty.Prim?;
    }
  }

  /** A person column splits into its `.name` and `.age` arrays. */
  lemma PersonPairs(t: Table, i: nat, n1: int, a1: int, n2: int, a2: int)
    requires i < |t| && t[i].arr == PersonArray(n1, a1, n2, a2)
    ensures Typed(t[i].arr)
    ensures StructPairs(t, i, t[i].arr, true) ==
              [(Composite(t[i].name, "name"), Strings(n1, n2)), (Composite(t[i].name, "age"), Int64s(a1, a2))]
  {
    PersonColumns(t[i].name, n1, a1, n2, a2);
    var cs := CompositeStructColumns(t[i].name, t[i].arr);
    assert cs[0].arr == StructChild(t[i].arr, 0) && cs[1].arr == StructChild(t[i].arr, 1);
  }

  /** The first pass over `id` and `person`: the copied `id`, then `person.name` and `person.age`. */
  lemma FirstPassWritesIdPerson(i1: int, i2: int, n1: int, a1: int, n2: int, a2: int, l1: int, l2: int)
    ensures AllTyped(CompositeKeysTable(i1, i2, n1, a1, n2, a2, l1, l2))
    ensures Writes(CompositeKeysTable(i1, i2, n1, a1, n2, a2, l1, l2), 2, true, false) ==
              Success([("id", Int64s(i1, i2)), ("person.name", Strings(n1, n2)), ("person.age", Int64s(a1, a2))])
  {
    var t := CompositeKeysTable(i1, i2, n1, a1, n2, a2, l1, l2);
    CompositeKeysTyped(i1, i2, n1, a1, n2, a2, l1, l2);
    CompositeKeysNames(i1, i2, n1, a1, n2, a2, l1, l2);
    var w0 := [("id", Int64s(i1, i2))];
    var w1 := [("person.name", Strings(n1, n2)), ("person.age", Int64s(a1, a2))];
    assert Writes(t, 0, true, false) == Success([]);
    FlatFieldWrites(t, 0, true, false);
    WritesSnoc(t, 0, true, false, [], w0);
    StructFieldWrites(t, 1, true);
    PersonPairs(t, 1, n1, a1, n2, a2);
    assert Composite("person", "name") == "person.name" && Composite("person", "age") == "person.age";
    WritesSnoc(t, 1, true, false, [] + w0, w1);
    assert [] + w0 + w1 == [("id", Int64s(i1, i2)), ("person.name", Strings(n1, n2)), ("person.age", Int64s(a1, a2))];
  }

  /** The first pass writes each column of the first-pass table once, in order. */
  lemma FirstPassWrites(i1: int, i2: int, n1: int, a1: int, n2: int, a2: int, l1: int, l2: int)
    ensures AllTyped(CompositeKeysTable(i1, i2, n1, a1, n2, a2, l1, l2))
    ensures Writes(CompositeKeysTable(i1, i2, n1, a1, n2, a2, l1, l2), 4, true, false) ==
              Success(PairsOf(CompositeKeysFirstPassTable(i1, i2, n1, a1, n2, a2, l1, l2)))
  {
    var t := CompositeKeysTable(i1, i2, n1, a1, n2, a2, l1, l2);
    var u := CompositeKeysFirstPassTable(i1, i2, n1, a1, n2, a2, l1, l2);
    FirstPassWritesIdPerson(i1, i2, n1, a1, n2, a2, l1, l2);
    CompositeKeysNames(i1, i2, n1, a1, n2, a2, l1, l2);
    var w01 := [("id", Int64s(i1, i2)), ("person.name", Strings(n1, n2)), ("person.age", Int64s(a1, a2))];
    var w2 := [("complicated_person.student", PersonArray(n1, a1, n2, a2))];
    var w3 := [("simple_list", Int64s(l1, l2))];
    StructFieldWrites(t, 2, true);
    StudentPairs(n1, a1, n2, a2);
    WritesSnoc(t, 2, true, false, w01, w2);
    ListFieldWrites(t, 3, true);
    SimpleListFlatten(l1, l2);
    WritesSnoc(t, 3, true, false, w01 + w2, w3);
    assert w01 + w2 + w3 == PairsOf(u);
  }

  /** `complicated_person` writes its one sub-field `student` under the composite name. */
  lemma StudentPairs(n1: int, a1: int, n2: int, a2: int)
    ensures var t := ComplicatedPersonTable(n1, a1, n2, a2);
            Typed(t[0].arr) &&
            StructPairs(t, 0, t[0].arr, true) == [("complicated_person.student", PersonArray(n1, a1, n2, a2))]
  {
    var t := ComplicatedPersonTable(n1, a1, n2, a2);
    ComplicatedPersonTyped(n1, a1, n2, a2);
    ComplicatedPersonNames();
    assert StructChild(t[0].arr, 0) == PersonArray(n1, a1, n2, a2);
  }

  /** `pc.list_flatten` of `[[l1], [l2]]` is `[l1, l2]`. */
  lemma SimpleListFlatten(l1: int, l2: int)
    ensures ListFlatten(SimpleList(l1, l2)) == Int64s(l1, l2)
  {
    var rows := SimpleList(l1, l2).data;
    assert rows[..1][..0] == [];
    assert ConcatMap(rows[..1], ListItems) == [Scalar(l1)];
  }

  /** The table a pass builds from writes with distinct names and two rows each is the table of those writes. */
  lemma PassOfPairs(t: Table, u: Table)
    requires AllTyped(t) && Writes(t, |t|, true, false) == Success(PairsOf(u)) && NamesUnique(u)
    requires forall j :: 0 <= j < |u| ==> |u[j].arr.data| == 2
    ensures Pass(t, true, false) == Success(u)
  {
    var ws := PairsOf(u);
    assert forall j :: 0 <= j < |ws| ==> ws[j] == (u[j].name, u[j].arr);
    PassOfDistinctWrites(t, true, false, ws, 2);
    assert seq(|ws|, j requires 0 <= j < |ws| => Column(ws[j].0, ws[j].1)) == u;
  }

  /** The first pass: `id` copied, `person` split, `student` lifted out, `simple_list` flattened. */
  lemma CompositeKeysFirstPass(i1: int, i2: int, n1: int, a1: int, n2: int, a2: int, l1: int, l2: int)
    ensures AllTyped(CompositeKeysTable(i1, i2, n1, a1, n2, a2, l1, l2))
    ensures Pass(CompositeKeysTable(i1, i2, n1, a1, n2, a2, l1, l2), true, false) ==
              Success(CompositeKeysFirstPassTable(i1, i2, n1, a1, n2, a2, l1, l2))
  {
    FirstPassWrites(i1, i2, n1, a1, n2, a2, l1, l2);
    FirstPassShape(i1, i2, n1, a1, n2, a2, l1, l2);
    PassOfPairs(CompositeKeysTable(i1, i2, n1, a1, n2, a2, l1, l2), CompositeKeysFirstPassTable(i1, i2, n1, a1, n2, a2, l1, l2));
  }

  /** The second pass over the flat columns `id`, `person.name` and `person.age`: each copied. */
  lemma SecondPassWritesFlat(i1: int, i2: int, n1: int, a1: int, n2: int, a2: int, l1: int, l2: int)
    ensures AllTyped(CompositeKeysFirstPassTable(i1, i2, n1, a1, n2, a2, l1, l2))
    ensures Writes(CompositeKeysFirstPassTable(i1, i2, n1, a1, n2, a2, l1, l2), 3, true, false) ==
              Success([("id", Int64s(i1, i2)), ("person.name", Strings(n1, n2)), ("person.age", Int64s(a1, a2))])
  {
    var u := CompositeKeysFirstPassTable(i1, i2, n1, a1, n2, a2, l1, l2);
    FirstPassTyped(i1, i2, n1, a1, n2, a2, l1, l2);
    var w0 := [("id", Int64s(i1, i2))];
    var w1 := [("person.name", Strings(n1, n2))];
    var w2 := [("person.age", Int64s(a1, a2))];
    assert Writes(u, 0, true, false) == Success([]);
    FlatFieldWrites(u, 0, true, false);
    WritesSnoc(u, 0, true, false, [], w0);
    FlatFieldWrites(u, 1, true, false);
    WritesSnoc(u, 1, true, false, [] + w0, w1);
    FlatFieldWrites(u, 2, true, false);
    WritesSnoc(u, 2, true, false, [] + w0 + w1, w2);
    assert [] + w0 + w1 + w2 == [("id", Int64s(i1, i2)), ("person.name", Strings(n1, n2)), ("person.age", Int64s(a1, a2))];
  }

  /** The second pass writes each column of the flat table once, in order. */
  lemma SecondPassWritesStudent(i1: int, i2: int, n1: int, a1: int, n2: int, a2: int, l1: int, l2: int)
    ensures AllTyped(CompositeKeysFirstPassTable(i1, i2, n1, a1, n2, a2, l1, l2))
    ensures Writes(CompositeKeysFirstPassTable(i1, i2, n1, a1, n2, a2, l1, l2), 4, true, false) ==
              Success([("id", Int64s(i1, i2)), ("person.name", Strings(n1, n2)), ("person.age", Int64s(a1, a2))] +
                      [("complicated_person.student.name", Strings(n1, n2)), ("complicated_person.student.age", Int64s(a1, a2))])
  {
    var u := CompositeKeysFirstPassTable(i1, i2, n1, a1, n2, a2, l1, l2);
    SecondPassWritesFlat(i1, i2, n1, a1, n2, a2, l1, l2);
    var w02 := [("id", Int64s(i1, i2)), ("person.name", Strings(n1, n2)), ("person.age", Int64s(a1, a2))];
    var w3 := [("complicated_person.student.name", Strings(n1, n2)), ("complicated_person.student.age", Int64s(a1, a2))];
    StructFieldWrites(u, 3, true);
    PersonPairs(u, 3, n1, a1, n2, a2);
    ComplicatedPersonNames();
    WritesSnoc(u, 3, true, false, w02, w3);
  }

  lemma SecondPassWrites(i1: int, i2: int, n1: int, a1: int, n2: int, a2: int, l1: int, l2: int)
    ensures AllTyped(CompositeKeysFirstPassTable(i1, i2, n1, a1, n2, a2, l1, l2))
    ensures Writes(CompositeKeysFirstPassTable(i1, i2, n1, a1, n2, a2, l1, l2), 5, true, false) ==
              Success(PairsOf(CompositeKeysFlatTable(i1, i2, n1, a1, n2, a2, l1, l2)))
  {
    var u := CompositeKeysFirstPassTable(i1, i2, n1, a1, n2, a2, l1, l2);
    var v := CompositeKeysFlatTable(i1, i2, n1, a1, n2, a2, l1, l2);
    SecondPassWritesStudent(i1, i2, n1, a1, n2, a2, l1, l2);
    var w02 := [("id", Int64s(i1, i2)), ("person.name", Strings(n1, n2)), ("person.age", Int64s(a1, a2))];
    var w3 := [("complicated_person.student.name", Strings(n1, n2)), ("complicated_person.student.age", Int64s(a1, a2))];
    var w4 := [("simple_list", Int64s(l1, l2))];
    FirstPassShape(i1, i2, n1, a1, n2, a2, l1, l2);
    FlatFieldWrites(u, 4, true, false);
    WritesSnoc(u, 4, true, false, w02 + w3, w4);
    assert w02 + w3 + w4 == PairsOf(v);
  }


  /** The second pass splits `complicated_person.student` and leaves the other columns as they are. */
  lemma CompositeKeysSecondPass(i1: int, i2: int, n1: int, a1: int, n2: int, a2: int, l1: int, l2: int)
    ensures AllTyped(CompositeKeysFirstPassTable(i1, i2, n1, a1, n2, a2, l1, l2))
    ensures Pass(CompositeKeysFirstPassTable(i1, i2, n1, a1, n2, a2, l1, l2), true, false) ==
              Success(CompositeKeysFlatTable(i1, i2, n1, a1, n2, a2, l1, l2))
  {
    SecondPassWrites(i1, i2, n1, a1, n2, a2, l1, l2);
    FlatTableShape(i1, i2, n1, a1, n2, a2, l1, l2);
    PassOfPairs(CompositeKeysFirstPassTable(i1, i2, n1, a1, n2, a2, l1, l2), CompositeKeysFlatTable(i1, i2, n1, a1, n2, a2, l1, l2));
  }

  /**
   * The whole test: flattening the four-column table recursively with composite names and without
   * keeping nested columns takes two passes and gives `person.name`, `person.age`,
   * `complicated_person.student.name`, `complicated_person.student.age` and `simple_list` as `[l1, l2]`,
   * every column keeping the table's two rows.
   */
  lemma CompositeKeysFlattens(i1: int, i2: int, n1: int, a1: int, n2: int, a2: int, l1: int, l2: int)
    ensures AllTyped(CompositeKeysTable(i1, i2, n1, a1, n2, a2, l1, l2))
    ensures FlattenAll(CompositeKeysTable(i1, i2, n1, a1, n2, a2, l1, l2), true, true, false).result ==
              Success(CompositeKeysFlatTable(i1, i2, n1, a1, n2, a2, l1, l2))
  {
    var t := CompositeKeysTable(i1, i2, n1, a1, n2, a2, l1, l2);
    var u := CompositeKeysFirstPassTable(i1, i2, n1, a1, n2, a2, l1, l2);
    var v := CompositeKeysFlatTable(i1, i2, n1, a1, n2, a2, l1, l2);
    CompositeKeysFirstPass(i1, i2, n1, a1, n2, a2, l1, l2);
    CompositeKeysSecondPass(i1, i2, n1, a1, n2, a2, l1, l2);
    FirstPassShape(i1, i2, n1, a1, n2, a2, l1, l2);
    FlatTableShape(i1, i2, n1, a1, n2, a2, l1, l2);
    assert IsNested(t[1].arr.ty);
    FlattenAllUnroll(t, true, u);
    FlattenAllUnroll(u, true, v);
    FlattenAllNoNested(v, true, true, false);
  }

  /* ---------- a kept list column under a recursive flatten ---------- */

  /** A dict built from two writes under one key holds the second. */
  lemma RewrittenKey(k: string, first: ChunkedArray, second: ChunkedArray)
    ensures FromPairs([(k, first), (k, second)]) == [(k, second)]
  {
    var w := [(k, first), (k, second)];
    assert w[..1] == [(k, first)];
    PutIsUpdate([], k, first);
    var d := Put([], k, first);
    assert Keys(d) == [k];
    assert Put(d, k, second) == [(k, second)];
  }

  /** The pass over a kept list column writes the column, then its flattening, under one name; the dict keeps the second. */
  lemma KeptListDict(l1: int, l2: int)
    ensures AllTyped([Column("simple_list", SimpleList(l1, l2))])
    ensures BuildArraysDict([Column("simple_list", SimpleList(l1, l2))], 1, true, true) ==
              Success([("simple_list", Int64s(l1, l2))])
  {
    var t := [Column("simple_list", SimpleList(l1, l2))];
    SimpleListTyped(l1, l2);
    SimpleListFlatten(l1, l2);
    var w := [("simple_list", SimpleList(l1, l2)), ("simple_list", Int64s(l1, l2))];
    KeptListFieldWrites(t, 0, true);
    WritesSnoc(t, 0, true, true, [], w);
    assert [] + w == w;
    BuildArraysDictWrites(t, 1, true, true);
    RewrittenKey("simple_list", SimpleList(l1, l2), Int64s(l1, l2));
  }

  /**
   * With both `recursive` and `keep_nested_columns` set, a table whose only nested column is a list
   * settles after one pass: the kept list column is overwritten under its own name by its
   * flattening, so the pass leaves no nested column and the loop stops.
   */
  lemma KeptListSettles(l1: int, l2: int)
    ensures AllTyped([Column("simple_list", SimpleList(l1, l2))])
    ensures Pass([Column("simple_list", SimpleList(l1, l2))], true, true) == Success([Column("simple_list", Int64s(l1, l2))])
    ensures !HasNestedColumns([Column("simple_list", Int64s(l1, l2))])
  {
    var t := [Column("simple_list", SimpleList(l1, l2))];
    KeptListDict(l1, l2);
    var d := [("simple_list", Int64s(l1, l2))];
    PassOfDict(t, true, true, d);
    var built := TableFromDict(d);
    assert built.Success? && |built.value| == 1 && built.value[0] == Column("simple_list", Int64s(l1, l2));
    assert built.value == [Column("simple_list", Int64s(l1, l2))];
    assert !IsNested(built.value[0].arr.ty);
  }
}

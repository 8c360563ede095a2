/**
 * The columnar-table vocabulary the flattener works on: column types, nullable values,
 * chunked arrays (chunk boundaries are not modelled), tables, and the table-library
 * primitives the flattener calls: lookup of a column by name, struct decomposition,
 * list flattening, `Table.flatten` and table construction from a name-to-array dict.
 */
module Arrow {
  import opened Wrappers
  import opened Seqs

  /** Non-nested type kinds: the twelve that have a nullable dataframe counterpart, and every other one. */
  datatype ScalarKind =
    | Int8 | Int16 | Int32 | Int64
    | UInt8 | UInt16 | UInt32 | UInt64
    | Bool | Float32 | Float64 | Utf8
    | OtherScalar(name: string)

  /**
   * A column type. `OtherNested` stands for the nested kinds that no flattening branch
   * handles (large and fixed-size lists, unions, ...).
   */
  datatype Type =
    | Prim(kind: ScalarKind)
    | Struct(fields: seq<Field>)
    | List(elem: Type)
    | Map(key: Type, item: Type)
    | OtherNested

  datatype Field = Field(name: string, ty: Type)

  /** One nullable cell. Scalar payloads (numbers, strings) are opaque tokens. */
  datatype Value =
    | Null
    | Scalar(token: int)
    | Record(slots: seq<Value>)
    | Items(elems: seq<Value>)
    | Entries(pairs: seq<Entry>)

  /** One stored key/value pair of a map cell; duplicate keys are allowed. */
  datatype Entry = Entry(key: Value, item: Value)

  /** A column's data: a logical sequence of cells of one type. */
  datatype ChunkedArray = ChunkedArray(ty: Type, data: seq<Value>)

  datatype Column = Column(name: string, arr: ChunkedArray)

  /** A table: named columns in schema order. Names need not be unique. */
  type Table = seq<Column>

  /** The errors a flatten call can end in. */
  datatype Error =
    | NoTableSet                     // the flattener's own ValueError: no table was set
    | UnknownColumn(name: string)    // Table.column(name): no field has that name
    | AmbiguousColumn(name: string)  // Table.column(name): several fields have that name
    | LengthMismatch                 // table construction: the arrays differ in length

  /** `pa.types.is_nested`: struct, list, map and the other nested kinds. */
  predicate IsNested(t: Type)
  {
    !t.Prim?
  }

  /** Nesting depth: 0 for scalars, one more than the deepest child for nested kinds. */
  function Depth(t: Type): nat
  {
    match t
    case Prim(_) => 0
    case OtherNested => 1
    case Struct(fs) => 1 + MaxOf(seq(|fs|, i requires 0 <= i < |fs| => Depth(fs[i].ty)))
    case List(e) => 1 + Depth(e)
    case Map(k, v) => 1 + (if Depth(k) < Depth(v) then Depth(v) else Depth(k))
  }

  /** How many struct levels lie directly on top of each other. */
  function StructDepth(t: Type): nat
  {
    if t.Struct? then
      1 + MaxOf(seq(|t.fields|, i requires 0 <= i < |t.fields| => StructDepth(t.fields[i].ty)))
    else 0
  }

  /** Depth is positive exactly for nested types, and every child type is strictly shallower. */
  lemma DepthFacts(t: Type)
    ensures IsNested(t) <==> Depth(t) > 0
    ensures t.Struct? ==> forall i :: 0 <= i < |t.fields| ==> Depth(t.fields[i].ty) < Depth(t)
    ensures t.Struct? ==> forall i :: 0 <= i < |t.fields| ==> StructDepth(t.fields[i].ty) < StructDepth(t)
    ensures t.List? ==> Depth(t.elem) < Depth(t)
    ensures t.Map? ==> Depth(t.key) < Depth(t) && Depth(t.item) < Depth(t)
  {
    if t.Struct? {
      var fs := t.fields;
      forall i | 0 <= i < |fs| ensures Depth(fs[i].ty) < Depth(t) && StructDepth(fs[i].ty) < StructDepth(t) {
        assert seq(|fs|, j requires 0 <= j < |fs| => Depth(fs[j].ty))[i] == Depth(fs[i].ty);
        assert seq(|fs|, j requires 0 <= j < |fs| => StructDepth(fs[j].ty))[i] == StructDepth(fs[i].ty);
      }
    }
  }

  /** Whether a cell fits a type. Null fits every type; map keys are never null. */
  predicate HasType(v: Value, t: Type)
  {
    match v
    case Null => true
    case Scalar(_) => t.Prim? || t.OtherNested?
    case Record(slots) =>
      t.OtherNested? ||
      (t.Struct? && |slots| == |t.fields| &&
       forall i :: 0 <= i < |slots| ==> HasType(slots[i], t.fields[i].ty))
    case Items(elems) =>
      t.OtherNested? ||
      (t.List? && forall i :: 0 <= i < |elems| ==> HasType(elems[i], t.elem))
    case Entries(pairs) =>
      t.OtherNested? ||
      (t.Map? && forall i :: 0 <= i < |pairs| ==>
         pairs[i].key != Null && HasType(pairs[i].key, t.key) && HasType(pairs[i].item, t.item))
  }

  predicate Typed(a: ChunkedArray)
  {
    forall r :: 0 <= r < |a.data| ==> HasType(a.data[r], a.ty)
  }

  predicate AllTyped(t: Table)
  {
    forall i :: 0 <= i < |t| ==> Typed(t[i].arr)
  }

  function NumRows(t: Table): nat
  {
    if t == [] then 0 else |t[0].arr.data|
  }

  /** Every column has the table's row count. */
  predicate Rectangular(t: Table)
  {
    forall i :: 0 <= i < |t| ==> |t[i].arr.data| == NumRows(t)
  }

  /** What the table library guarantees of every table: equal-length columns whose cells fit their types. */
  predicate WellFormed(t: Table)
  {
    AllTyped(t) && Rectangular(t)
  }

  ghost predicate NamesUnique(t: Table)
  {
    forall i, j :: 0 <= i < j < |t| ==> t[i].name != t[j].name
  }

  /** The positions of the columns named `name`, in increasing order. */
  function Positions(t: Table, name: string): seq<nat>
  {
    if t == [] then []
    else
      var ps := Positions(t[..|t| - 1], name);
      if t[|t| - 1].name == name then ps + [|t| - 1] else ps
  }

  /** Positions finds every column with the name, and only those, in increasing order. */
  lemma {:induction false} PositionsFacts(t: Table, name: string)
    ensures forall k :: 0 <= k < |Positions(t, name)| ==>
              Positions(t, name)[k] < |t| && t[Positions(t, name)[k]].name == name
    ensures forall k, l :: 0 <= k < l < |Positions(t, name)| ==> Positions(t, name)[k] < Positions(t, name)[l]
    ensures forall i :: 0 <= i < |t| && t[i].name == name ==> i in Positions(t, name)
  {
    if t != [] {
      var n := |t| - 1;
      PositionsFacts(t[..n], name);
      forall i | 0 <= i < n ensures t[..n][i] == t[i] {
      }
    }
  }

  /** `Table.column(name)`: the data of the one column with that name; a KeyError when there is none or more than one. */
  function ColumnNamed(t: Table, name: string): Result<ChunkedArray, Error>
  {
    var ps := Positions(t, name);
    PositionsFacts(t, name);
    if |ps| == 0 then Failure(UnknownColumn(name))
    else if |ps| > 1 then
      assert t[ps[0]].name == name && t[ps[1]].name == name;
      Failure(AmbiguousColumn(name))
    else Success(t[ps[0]].arr)
  }

  /** A found column is the column with the name, wherever it stands. */
  lemma ColumnNamedFound(t: Table, name: string)
    ensures ColumnNamed(t, name).Success? ==>
              forall i :: 0 <= i < |t| && t[i].name == name ==> ColumnNamed(t, name).value == t[i].arr
  {
    PositionsFacts(t, name);
  }

  /** A strictly increasing sequence of naturals spreads at least one per element. */
  lemma {:induction false} IncreasingSpread(s: seq<nat>)
    requires forall k, l :: 0 <= k < l < |s| ==> s[k] < s[l]
    ensures |s| > 0 ==> s[|s| - 1] >= s[0] + |s| - 1
  {
    if |s| > 1 {
      IncreasingSpread(s[..|s| - 1]);
      assert s[|s| - 2] < s[|s| - 1];
    }
  }

  /**
   * The lookup's three outcomes: no column with the name is an unknown-column error, two or more
   * are an ambiguous-column error, exactly one is found.
   */
  lemma ColumnNamedCases(t: Table, name: string)
    ensures (forall i :: 0 <= i < |t| ==> t[i].name != name) ==> ColumnNamed(t, name) == Failure(UnknownColumn(name))
    ensures forall i, j :: 0 <= i < j < |t| && t[i].name == name && t[j].name == name ==>
              ColumnNamed(t, name) == Failure(AmbiguousColumn(name))
    ensures forall i :: 0 <= i < |t| && t[i].name == name ==>
              (forall j :: 0 <= j < |t| && j != i ==> t[j].name != name) ==> ColumnNamed(t, name) == Success(t[i].arr)
  {
    var ps := Positions(t, name);
    PositionsFacts(t, name);
    if |ps| > 0 {
      assert t[ps[0]].name == name;
    }
    forall i, j | 0 <= i < j < |t| && t[i].name == name && t[j].name == name
      ensures ColumnNamed(t, name) == Failure(AmbiguousColumn(name))
    {
      var a :| 0 <= a < |ps| && ps[a] == i;
      var b :| 0 <= b < |ps| && ps[b] == j;
      assert a != b;
    }
    forall i | 0 <= i < |t| && t[i].name == name && (forall j :: 0 <= j < |t| && j != i ==> t[j].name != name)
      ensures ColumnNamed(t, name) == Success(t[i].arr)
    {
      assert i in ps;
      assert forall k :: 0 <= k < |ps| ==> ps[k] == i;
      IncreasingSpread(ps);
      assert ps[0] == i && ps[|ps| - 1] == i;
    }
  }

  /** With unique names every column is found by its own name. */
  lemma ColumnNamedUnique(t: Table, i: nat)
    requires NamesUnique(t) && i < |t|
    ensures ColumnNamed(t, t[i].name) == Success(t[i].arr)
  {
    ColumnNamedCases(t, t[i].name);
  }

  /** A composite column name: parent, one `.` separator, child. No escaping. */
  function Composite(parent: string, child: string): string
  {
    parent + "." + child
  }

  /**
   * Sub-field `i` of a struct array, as the struct array's flatten produces it: the sub-field's
   * cell on every row, and null on rows where the struct itself is null.
   */
  function StructChild(a: ChunkedArray, i: nat): (c: ChunkedArray)
    requires a.ty.Struct? && i < |a.ty.fields| && Typed(a)
    ensures c.ty == a.ty.fields[i].ty && |c.data| == |a.data|
  {
    ChunkedArray(
      a.ty.fields[i].ty,
      seq(|a.data|, r requires 0 <= r < |a.data| => if a.data[r].Null? then Null else a.data[r].slots[i]))
  }

  /** Each child of a typed struct array fits its sub-field's type. */
  lemma StructChildTyped(a: ChunkedArray, i: nat)
    requires a.ty.Struct? && i < |a.ty.fields| && Typed(a)
    ensures Typed(StructChild(a, i))
  {
  }

  /** `ChunkedArray.flatten()` on a struct array: one array per sub-field, in sub-field order. */
  function StructChildren(a: ChunkedArray): (cs: seq<ChunkedArray>)
    requires a.ty.Struct? && Typed(a)
    ensures |cs| == |a.ty.fields|
  {
    seq(|a.ty.fields|, i requires 0 <= i < |a.ty.fields| => StructChild(a, i))
  }

  /**
   * Struct decomposition is exact: every child has the struct's length and the sub-field's type,
   * a null struct row is null in every child, and a non-null row is recovered by reading the
   * children back at that row.
   */
  lemma StructDecomposition(a: ChunkedArray, r: nat)
    requires a.ty.Struct? && Typed(a) && r < |a.data|
    ensures forall i :: 0 <= i < |a.ty.fields| ==>
              StructChildren(a)[i].ty == a.ty.fields[i].ty && |StructChildren(a)[i].data| == |a.data|
    ensures a.data[r] == Null ==> forall i :: 0 <= i < |a.ty.fields| ==> StructChildren(a)[i].data[r] == Null
    ensures a.data[r] != Null ==>
              a.data[r] == Record(seq(|a.ty.fields|, i requires 0 <= i < |a.ty.fields| => StructChildren(a)[i].data[r]))
  {
    if a.data[r] != Null {
      assert HasType(a.data[r], a.ty);
    }
  }

  /** The elements of one list cell; a null cell has none. */
  function ListItems(v: Value): seq<Value>
  {
    if v.Items? then v.elems else []
  }

  /** `pc.list_flatten`: every row's elements, rows in order; null rows add nothing, null elements stay. */
  function ListFlatten(a: ChunkedArray): (c: ChunkedArray)
    requires a.ty.List?
    ensures c.ty == a.ty.elem
  {
    ChunkedArray(a.ty.elem, ConcatMap(a.data, ListItems))
  }

  /** The length of a flattened list column is the sum of the per-row list lengths. */
  lemma ListFlattenLength(a: ChunkedArray)
    requires a.ty.List?
    ensures |ListFlatten(a).data| == TotalLength(a.data, ListItems)
  {
    ConcatMapLength(a.data, ListItems);
  }

  /** Row-major order: element `j` of row `r` lands right after all the elements of the earlier rows. */
  lemma ListFlattenOrder(a: ChunkedArray, r: nat, j: nat)
    requires a.ty.List? && r < |a.data| && j < |ListItems(a.data[r])|
    ensures |ConcatMap(a.data[..r], ListItems)| + j < |ListFlatten(a).data|
    ensures ListFlatten(a).data[|ConcatMap(a.data[..r], ListItems)| + j] == ListItems(a.data[r])[j]
  {
    ConcatMapIndex(a.data, ListItems, r, j);
  }

  /** The flattened column fits the list's element type. */
  lemma ListFlattenTyped(a: ChunkedArray)
    requires a.ty.List? && Typed(a)
    ensures Typed(ListFlatten(a))
  {
    var c := ListFlatten(a);
    forall k | 0 <= k < |c.data| ensures HasType(c.data[k], c.ty) {
      var y := c.data[k];
      ConcatMapMember(a.data, ListItems, y);
      var r :| 0 <= r < |a.data| && y in ListItems(a.data[r]);
      assert HasType(a.data[r], a.ty);
    }
  }

  /** `[[1], [null], [5]]` flattens to `[1, null, 5]`: the null element is kept in place. */
  lemma ListFlattenKeepsNullElements()
    ensures ListFlatten(ChunkedArray(List(Prim(Int64)), [Items([Scalar(1)]), Items([Null]), Items([Scalar(5)])])).data
            == [Scalar(1), Null, Scalar(5)]
  {
    var rows := [Items([Scalar(1)]), Items([Null]), Items([Scalar(5)])];
    assert rows[..2] == [Items([Scalar(1)]), Items([Null])];
    assert rows[..2][..1] == [Items([Scalar(1)])];
    assert rows[..2][..1][..0] == [];
    assert ConcatMap(rows[..2][..1], ListItems) == [Scalar(1)];
    assert ConcatMap(rows[..2], ListItems) == [Scalar(1), Null];
  }

  /** One column under `Table.flatten()`: a struct column becomes `parent.child` columns, any other column stays. */
  function ColumnFlatten(c: Column): seq<Column>
    requires Typed(c.arr)
  {
    if c.arr.ty.Struct? then
      seq(|c.arr.ty.fields|, i requires 0 <= i < |c.arr.ty.fields| =>
        Column(Composite(c.name, c.arr.ty.fields[i].name), StructChild(c.arr, i)))
    else [c]
  }

  /** `Table.flatten()`: one level of top-level struct columns expanded in place; names may repeat. */
  function TableFlatten(t: Table): Table
    requires AllTyped(t)
  {
    if t == [] then [] else TableFlatten(t[..|t| - 1]) + ColumnFlatten(t[|t| - 1])
  }

  /** `pa.table(dict)`: one column per entry, in dict order; fails when the arrays differ in length. */
  function TableFromDict(d: seq<(string, ChunkedArray)>): (r: Result<Table, Error>)
    ensures r.Success? <==> forall i, j :: 0 <= i < |d| && 0 <= j < |d| ==> |d[i].1.data| == |d[j].1.data|
    ensures r.Success? ==> Rectangular(r.value)
    ensures r.Success? ==> |r.value| == |d| && forall i :: 0 <= i < |d| ==> r.value[i] == Column(d[i].0, d[i].1)
  {
    if forall i | 0 <= i < |d| :: |d[i].1.data| == |d[0].1.data| then
      Success(seq(|d|, i requires 0 <= i < |d| => Column(d[i].0, d[i].1)))
    else Failure(LengthMismatch)
  }
}

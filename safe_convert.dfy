/**
 * The pure helpers beside the flattener: the dtype lookup that `to_pandas_safe` hands to the
 * dataframe conversion, and `map_to_dict`, which turns each map cell into a dict.
 */
module SafeConvert {
  import opened Wrappers
  import opened OrderedDict
  import opened Arrow
  import opened Flattening

  /** The nullable dataframe dtypes the lookup produces. */
  datatype PandasDtype =
    | Int8Dtype | Int16Dtype | Int32Dtype | Int64Dtype
    | UInt8Dtype | UInt16Dtype | UInt32Dtype | UInt64Dtype
    | BooleanDtype | Float32Dtype | Float64Dtype | StringDtype

  /**
   * `dtype_mapping.get`: the nullable dtype of the twelve listed scalar types, None for every
   * other type. The mapping's map entry is keyed by the map-type constructor, not by a map type,
   * so no column type ever finds it.
   */
  function DtypeLookup(t: Type): (r: Option<PandasDtype>)
    ensures r.Some? <==> t.Prim? && !t.kind.OtherScalar?
  {
    if !t.Prim? then None
    else match t.kind
      case Int8 => Some(Int8Dtype)
      case Int16 => Some(Int16Dtype)
      case Int32 => Some(Int32Dtype)
      case Int64 => Some(Int64Dtype)
      case UInt8 => Some(UInt8Dtype)
      case UInt16 => Some(UInt16Dtype)
      case UInt32 => Some(UInt32Dtype)
      case UInt64 => Some(UInt64Dtype)
      case Bool => Some(BooleanDtype)
      case Float32 => Some(Float32Dtype)
      case Float64 => Some(Float64Dtype)
      case Utf8 => Some(StringDtype)
      case OtherScalar(_) => None
  }

  /** The column type each dtype stands for. */
  function SourceKind(d: PandasDtype): ScalarKind
  {
    match d
    case Int8Dtype => Int8
    case Int16Dtype => Int16
    case Int32Dtype => Int32
    case Int64Dtype => Int64
    case UInt8Dtype => UInt8
    case UInt16Dtype => UInt16
    case UInt32Dtype => UInt32
    case UInt64Dtype => UInt64
    case BooleanDtype => Bool
    case Float32Dtype => Float32
    case Float64Dtype => Float64
    case StringDtype => Utf8
  }

  /**
   * The lookup is a bijection between the twelve scalar types and the twelve dtypes: each dtype
   * is found exactly for the type it stands for.
   */
  lemma DtypeLookupInverse(t: Type, d: PandasDtype)
    ensures DtypeLookup(t) == Some(d) <==> t == Prim(SourceKind(d))
  {
  }

  /** Two different column types never share a dtype. */
  lemma DtypeLookupInjective(t: Type, u: Type)
    requires DtypeLookup(t).Some? && DtypeLookup(t) == DtypeLookup(u)
    ensures t == u
  {
    DtypeLookupInverse(t, DtypeLookup(t).value);
    DtypeLookupInverse(u, DtypeLookup(t).value);
  }

  /** A map-typed column, like every nested one, falls back to the default conversion. */
  lemma MapTypeFallsBack(key: Type, item: Type)
    ensures DtypeLookup(Map(key, item)) == None
  {
  }

  /** `dict(zip(m.keys(), m.values()))` for one map cell; a null cell has no entries. */
  function CellDict(v: Value): seq<(Value, Value)>
  {
    var es := RowEntries(v);
    FromPairs(Zip(EntryKeys(es), EntryItems(es)))
  }

  /** `map_to_dict`: one dict per row of the map column. */
  function MapToDict(col: ChunkedArray): (ds: seq<seq<(Value, Value)>>)
    ensures |ds| == |col.data|
  {
    seq(|col.data|, r requires 0 <= r < |col.data| => CellDict(col.data[r]))
  }

  /**
   * Row `r` of `map_to_dict` has each key of the cell once, in order of first occurrence, and a
   * key stored several times maps to the value stored last.
   */
  lemma MapToDictRow(col: ChunkedArray, r: nat)
    requires r < |col.data|
    ensures var es := RowEntries(col.data[r]);
            var ps := Zip(EntryKeys(es), EntryItems(es));
            UniqueKeys(MapToDict(col)[r]) &&
            Keys(MapToDict(col)[r]) == AddKeys([], EntryKeys(es)) &&
            Keys(ps) == EntryKeys(es) &&
            forall k :: Get(MapToDict(col)[r], k) == if k in Keys(ps) then Some(LastValue(ps, k)) else None
  {
    var es := RowEntries(col.data[r]);
    var ps := Zip(EntryKeys(es), EntryItems(es));
    UpdateFacts([], ps);
    assert UniqueKeys<Value, Value>([]);
    assert Keys<Value, Value>([]) == [];
    assert Keys(ps) == EntryKeys(es);
    forall k ensures Get<Value, Value>([], k) == None {
      assert Keys<Value, Value>([]) == [];
    }
  }

  /** A cell storing `k` twice, first with `a` and then with `b`, becomes the one-entry dict `{k: b}`. */
  lemma MapToDictDuplicateKey(k: Value, a: Value, b: Value)
    ensures MapToDict(ChunkedArray(Map(Prim(Utf8), Prim(Int64)), [Entries([Entry(k, a), Entry(k, b)])])) == [[(k, b)]]
  {
    var es := [Entry(k, a), Entry(k, b)];
    var ps := Zip(EntryKeys(es), EntryItems(es));
    assert ps == [(k, a), (k, b)];
    assert ps[..1][..0] == [];
    assert Keys<Value, Value>([]) == [];
    assert Update<Value, Value>([], []) == [];
    assert FromPairs(ps[..1]) == [(k, a)];
    assert FromPairs(ps) == [(k, b)];
  }
}

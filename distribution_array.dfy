/** The distribution extension array: a numpy record buffer whose layout is
    the dtype's field list (every field a 64-bit float), plus the dtype.
    Its row logic is shared with the structured array (module `Columnar`);
    scalars go through the dtype's `_get_scalar` and `_set_scalar`. */
module DistributionArrays {
  import opened Outcomes
  import opened Values
  import opened Dicts
  import opened Columnar
  import opened Interchange
  import opened DistributionBase

  /** Bytes per field: every field is a 64-bit float. */
  const FieldBytes: nat := 8

  /** The right-hand side of `==`. */
  datatype Operand = DistributionOperand(target: DistributionArray) | OtherOperand

  function Converter(d: DistributionDtype): Option<Distribution> -> Result<Record>
  {
    v => RecordFor(d, v)
  }

  /** The rows `take` produces; an unspecified fill is `na_value` (`None`),
      stored the way `_set_scalar` stores it: every field NaN. */
  function TakeSpec(d: DistributionDtype, rows: seq<Record>, indices: seq<int>, allowFill: bool, fill: Option<Distribution>): Result<seq<Record>>
  {
    if !allowFill then TakeRows(rows, indices, false, [])
    else
      match RecordFor(d, fill)
      case Err(e) => Err(e)
      case Ok(f) => TakeRows(rows, indices, true, f)
  }

  /** The rows of each array, in order. */
  function Contents(parts: seq<DistributionArray>): seq<seq<Record>>
    reads set c | 0 <= c < |parts| :: parts[c].data
  {
    seq(|parts|, c requires 0 <= c < |parts| reads if 0 <= c < |parts| then {parts[c].data} else {} =>
      parts[c].data[..])
  }

  class DistributionArray {
    const dtype: DistributionDtype
    const data: array<Record>

    /** The buffer has the dtype's internal layout. */
    ghost predicate Valid()
      reads data
    {
      ValidDtype(dtype) && HasWidth(data[..], Width(dtype))
    }

    constructor (data: array<Record>, dtype: DistributionDtype)
      requires ValidDtype(dtype) && HasWidth(data[..], Width(dtype))
      ensures this.data == data && this.dtype == dtype
      ensures Valid()
    {
      this.data := data;
      this.dtype := dtype;
    }

    /** `empty(length, dtype)`: a zero-filled buffer of `length` rows. */
    static method Empty(length: nat, dtype: DistributionDtype) returns (a: DistributionArray)
      requires ValidDtype(dtype)
      ensures fresh(a) && fresh(a.data) && a.Valid() && a.dtype == dtype
      ensures a.data.Length == length
      ensures forall i :: 0 <= i < length ==> a.data[i] == Uniform(Width(dtype), Num(0.0))
    {
      var storage := Allocate(seq(length, _ => Uniform(Width(dtype), Num(0.0))));
      a := new DistributionArray(storage, dtype);
    }

    /** `_from_sequence`: a dtype is required (`ValueError`); a zeroed
        buffer is then filled scalar by scalar through `_set_scalar`, and
        the first scalar that does not fit raises. */
    static method FromSequence(scalars: seq<Option<Distribution>>, dtype: Option<DistributionDtype>) returns (r: Result<DistributionArray>)
      requires dtype.Some? ==> ValidDtype(dtype.value)
      ensures dtype.None? ==> r == Err(ValueError)
      ensures dtype.Some? ==> (r.Ok? <==> Marshal(Converter(dtype.value), scalars).Ok?)
      ensures dtype.Some? && r.Err? ==> r == Err(Marshal(Converter(dtype.value), scalars).error)
      ensures r.Ok? ==> fresh(r.value) && fresh(r.value.data) && r.value.Valid()
      ensures r.Ok? ==> r.value.dtype == dtype.value && r.value.data[..] == Marshal(Converter(dtype.value), scalars).value
    {
      if dtype.None? {
        return Err(ValueError);
      }
      var d := dtype.value;
      var a := Allocate(seq(|scalars|, _ => Uniform(Width(d), Num(0.0))));
      for i := 0 to |scalars|
        invariant forall j :: 0 <= j < i ==> RecordFor(d, scalars[j]).Ok?
        invariant forall j :: 0 <= j < i ==> a[j] == RecordFor(d, scalars[j]).value
      {
        var o := SetScalar(d, a, i, scalars[i]);
        if o.Raised? {
          MarshalFirstError(Converter(d), scalars, i);
          return Err(o.error);
        }
      }
      assert a[..] == Marshal(Converter(d), scalars).value;
      var arr := new DistributionArray(a, d);
      r := Ok(arr);
    }

    /** `len`. */
    function Length(): nat
    {
      data.Length
    }

    /** `__array__`: the scalar of every row, in order. */
    method ToScalars() returns (xs: seq<Distribution>)
      requires Valid()
      ensures |xs| == data.Length
      ensures forall i :: 0 <= i < data.Length ==> DtypeOf(xs[i]) == dtype && ToTuple(xs[i]) == data[i]
    {
      xs := [];
      for i := 0 to data.Length
        invariant |xs| == i
        invariant forall j :: 0 <= j < i ==> DtypeOf(xs[j]) == dtype && ToTuple(xs[j]) == data[j]
      {
        xs := xs + [GetScalar(dtype, data[i])];
      }
    }

    /** `array[i]` for an integer `i`: the scalar of that row. */
    method Get(index: int) returns (r: Result<Distribution>)
      requires Valid()
      ensures r.Ok? <==> NormIndex(data.Length, index).Some?
      ensures r.Err? ==> r.error == IndexError
      ensures r.Ok? ==> DtypeOf(r.value) == dtype
      ensures r.Ok? ==> ToTuple(r.value) == data[NormIndex(data.Length, index).value]
    {
      var i := NormIndex(data.Length, index);
      if i.None? {
        return Err(IndexError);
      }
      r := Ok(GetScalar(dtype, data[i.value]));
    }

    /** `array[indexer]` for an integer array or a boolean mask: a new array
        holding copies of the selected rows, in selection order. */
    method Select(ix: Indexer) returns (r: Result<DistributionArray>)
      requires Valid()
      ensures r.Ok? <==> Resolve(data.Length, ix).Ok?
      ensures r.Err? ==> r.error == IndexError
      ensures r.Ok? ==> fresh(r.value) && fresh(r.value.data) && r.value.Valid() && r.value.dtype == dtype
      ensures r.Ok? ==> r.value.data[..] == Gather(data[..], Resolve(data.Length, ix).value)
    {
      var ps := Resolve(data.Length, ix);
      if ps.Err? {
        return Err(ps.error);
      }
      var a := Allocate(Gather(data[..], ps.value));
      var arr := new DistributionArray(a, dtype);
      r := Ok(arr);
    }

    /** `array[i] = value` for an integer `i`, through `_set_scalar`. */
    method Set(index: int, v: Option<Distribution>) returns (o: Outcome)
      requires Valid()
      modifies data
      ensures Valid()
      ensures o == Raised(TypeError) <==> RecordFor(dtype, v) == Err(TypeError)
      ensures o == Raised(IndexError) <==>
        RecordFor(dtype, v) != Err(TypeError) && NormIndex(data.Length, index).None?
      ensures o.Done? <==> RecordFor(dtype, v).Ok? && NormIndex(data.Length, index).Some?
      ensures o.Raised? ==> data[..] == old(data[..])
      ensures o.Done? ==>
        data[..] == old(data[..])[NormIndex(data.Length, index).value := RecordFor(dtype, v).value]
    {
      o := SetScalar(dtype, data, index, v);
    }

    /** `array[indexer] = value` for an integer array or a boolean mask. */
    method SetMany(ix: Indexer, value: Bulk<Record>) returns (o: Outcome)
      requires Valid()
      modifies data
      ensures Valid()
      ensures o.Done? <==>
        Resolve(data.Length, ix).Ok? && FitsWidth(value, Width(dtype)) &&
        Spread(|Resolve(data.Length, ix).value|, value).Ok?
      ensures Resolve(data.Length, ix).Err? ==> o == Raised(IndexError)
      ensures Resolve(data.Length, ix).Ok? && o.Raised? ==> o.error == ValueError
      ensures o.Raised? ==> data[..] == old(data[..])
      ensures o.Done? ==>
        data[..] == Scatter(old(data[..]), Resolve(data.Length, ix).value,
                            Spread(|Resolve(data.Length, ix).value|, value).value)
    {
      o := AssignRows(data, Width(dtype), ix, value);
    }

    /** `==`: another distribution array of an equal dtype is compared row
        by row; anything else is `NotImplemented`. */
    method Equals(other: Operand) returns (c: Comparison)
      ensures !(other.DistributionOperand? && other.target.dtype == dtype) ==> c == NotImplemented
      ensures other.DistributionOperand? && other.target.dtype == dtype ==>
        c == CompareRows(data[..], other.target.data[..])
    {
      if !other.DistributionOperand? || other.target.dtype != dtype {
        return NotImplemented;
      }
      c := CompareRows(data[..], other.target.data[..]);
    }

    /** `nbytes`: eight bytes per field per row. */
    function Nbytes(): nat
    {
      FieldBytes * Width(dtype) * data.Length
    }

    /** `isna`: a row is missing when any of its fields is NaN; a dtype
        without fields (`dist[categorical]`) raises `TypeError`. */
    function IsNA(): (r: Result<seq<bool>>)
      reads data
      requires Valid()
      ensures r.Ok? <==> Width(dtype) > 0
      ensures r.Err? ==> r.error == TypeError
      ensures r.Ok? ==> |r.value| == data.Length
      ensures r.Ok? ==> forall i :: 0 <= i < data.Length ==> (r.value[i] <==> AnyNaN(data[i]))
    {
      MissingMask(data[..], Width(dtype))
    }

    /** `copy`: a new array over a new buffer with the same rows. */
    method Copy() returns (c: DistributionArray)
      requires Valid()
      ensures fresh(c) && fresh(c.data) && c.Valid()
      ensures c.dtype == dtype && c.data[..] == data[..]
    {
      var a := Allocate(data[..]);
      c := new DistributionArray(a, dtype);
    }

    /** `_concat_same_type`: the rows of all arrays, one array after the
        other, with the first array's dtype.  numpy refuses an empty list
        (`ValueError`) and differing field lists (`TypeError`); dtypes with
        the same field list are not otherwise compared. */
    static method ConcatSameType(parts: seq<DistributionArray>) returns (r: Result<DistributionArray>)
      requires forall c :: 0 <= c < |parts| ==> parts[c].Valid()
      ensures |parts| == 0 ==> r == Err(ValueError)
      ensures |parts| > 0 ==>
        (r.Ok? <==> forall c :: 0 <= c < |parts| ==> Names(parts[c].dtype) == Names(parts[0].dtype))
      ensures |parts| > 0 && r.Err? ==> r.error == TypeError
      ensures r.Ok? ==> fresh(r.value) && fresh(r.value.data) && r.value.Valid()
      ensures r.Ok? ==> r.value.dtype == parts[0].dtype && r.value.data[..] == Flatten(Contents(parts))
    {
      if |parts| == 0 {
        return Err(ValueError);
      }
      var rows := GatherRows(parts);
      if rows.Err? {
        return Err(rows.error);
      }
      ghost var contents := Contents(parts);
      var a := Allocate(rows.value);
      var arr := new DistributionArray(a, parts[0].dtype);
      assert Contents(parts) == contents;
      r := Ok(arr);
    }

    /** The loop of `_concat_same_type`: the rows of every array, one array
        after the other, as long as each has the first array's fields. */
    static method GatherRows(parts: seq<DistributionArray>) returns (r: Result<seq<Record>>)
      requires |parts| > 0
      requires forall c :: 0 <= c < |parts| ==> parts[c].Valid()
      ensures r.Ok? <==> forall c :: 0 <= c < |parts| ==> Names(parts[c].dtype) == Names(parts[0].dtype)
      ensures r.Err? ==> r.error == TypeError
      ensures r.Ok? ==> r.value == Flatten(Contents(parts)) && HasWidth(r.value, Width(parts[0].dtype))
    {
      var d := parts[0].dtype;
      ghost var contents := Contents(parts);
      var rows: seq<Record> := [];
      for c := 0 to |parts|
        invariant forall c' :: 0 <= c' < c ==> Names(parts[c'].dtype) == Names(d)
        invariant rows == Flatten(contents[..c])
        invariant HasWidth(rows, Width(d))
      {
        if Names(parts[c].dtype) != Names(d) {
          return Err(TypeError);
        }
        assert parts[c].Valid();
        assert contents[c] == parts[c].data[..];
        assert Width(parts[c].dtype) == Width(d);
        ConcatStep(contents, c, rows, Width(d));
        rows := rows + parts[c].data[..];
      }
      assert contents[..|parts|] == contents;
      r := Ok(rows);
    }

    /** `take`: see `TakeRows`; with `allow_fill` and no fill value, filled
        rows are missing (every field NaN). */
    method Take(indices: seq<int>, allowFill: bool, fill: Option<Distribution>) returns (r: Result<DistributionArray>)
      requires Valid()
      ensures r.Ok? <==> TakeSpec(dtype, data[..], indices, allowFill, fill).Ok?
      ensures r.Err? ==> r.error == TakeSpec(dtype, data[..], indices, allowFill, fill).error
      ensures r.Ok? ==> fresh(r.value) && fresh(r.value.data) && r.value.Valid() && r.value.dtype == dtype
      ensures r.Ok? ==> r.value.data[..] == TakeSpec(dtype, data[..], indices, allowFill, fill).value
    {
      var rows := TakeSpec(dtype, data[..], indices, allowFill, fill);
      if rows.Err? {
        return Err(rows.error);
      }
      var a := Allocate(rows.value);
      var arr := new DistributionArray(a, dtype);
      r := Ok(arr);
    }

    /** `__arrow_array__`: a struct array with one child per field, from
        which `__from_arrow__` reads back the same rows. */
    method ToArrow() returns (sa: StructArray)
      requires Valid()
      ensures WellFormed(sa) && sa.names == Names(dtype) && sa.length == data.Length
      ensures Decode(Names(dtype), Single(sa)) == Ok(data[..])
    {
      sa := Encode(Names(dtype), data[..]);
      RoundTrip(Names(dtype), data[..]);
    }

    /** `view_field(name)`: a view of that field sharing the buffer, so
        writes through it change this array; an unknown name raises
        `KeyError`. */
    method ViewField(name: string) returns (r: Result<FieldView>)
      requires Valid()
      ensures r.Ok? <==> name in Names(dtype)
      ensures r.Err? ==> r.error == KeyError
      ensures r.Ok? ==> fresh(r.value) && r.value.storage == data && r.value.Valid()
      ensures r.Ok? ==> r.value.field < Width(dtype) && Names(dtype)[r.value.field] == name
    {
      var k := FieldIndex(Names(dtype), name);
      if k.Err? {
        return Err(KeyError);
      }
      var view := new FieldView(data, k.value);
      r := Ok(view);
    }
  }

  /** The `nbytes` of the arrays, added up. */
  function SumNbytes(parts: seq<DistributionArray>): nat
  {
    if |parts| == 0 then 0 else SumNbytes(parts[..|parts| - 1]) + parts[|parts| - 1].Nbytes()
  }

  /** `nbytes` of a concatenation of arrays of one layout: the parts'
      `nbytes` added up. */
  lemma ConcatNbytes(parts: seq<DistributionArray>, r: DistributionArray)
    requires |parts| > 0
    requires forall c :: 0 <= c < |parts| ==> Names(parts[c].dtype) == Names(parts[0].dtype)
    requires r.dtype == parts[0].dtype && r.data[..] == Flatten(Contents(parts))
    ensures r.Length() == TotalLength(Contents(parts))
    ensures r.Nbytes() == SumNbytes(parts)
  {
    FlattenLength(Contents(parts));
    NbytesSum(parts, Width(parts[0].dtype));
  }

  lemma {:induction false} NbytesSum(parts: seq<DistributionArray>, w: nat)
    requires forall c :: 0 <= c < |parts| ==> Width(parts[c].dtype) == w
    ensures SumNbytes(parts) == FieldBytes * w * TotalLength(Contents(parts))
  {
    if |parts| > 0 {
      var n := |parts| - 1;
      NbytesSum(parts[..n], w);
      assert Contents(parts)[..n] == Contents(parts[..n]);
      assert |Contents(parts)[n]| == parts[n].Length();
      assert FieldBytes * w * (TotalLength(Contents(parts[..n])) + parts[n].Length()) ==
        FieldBytes * w * TotalLength(Contents(parts[..n])) + FieldBytes * w * parts[n].Length();
    }
  }

  /** Where field `name` sits in a valid dtype's layout: the one position
      that holds it. */
  function FieldOf(d: DistributionDtype, name: string): (k: nat)
    requires ValidDtype(d) && name in Names(d)
    ensures k < Width(d) && Names(d)[k] == name
    ensures FieldIndex(Names(d), name) == Ok(k)
  {
    FieldIndex(Names(d), name).value
  }

  /** `__from_arrow__`: the rows decoded from the struct array's children,
      field by field, in a new array of this dtype. */
  method FromArrow(d: DistributionDtype, arrow: ArrowData) returns (r: Result<DistributionArray>)
    requires ValidDtype(d) && ValidData(arrow)
    ensures r.Ok? <==> Decode(Names(d), arrow).Ok?
    ensures r.Err? ==> r.error == KeyError
    ensures r.Ok? ==> fresh(r.value) && fresh(r.value.data) && r.value.Valid() && r.value.dtype == d
    ensures r.Ok? ==> r.value.data[..] == Decode(Names(d), arrow).value
  {
    var a := Load(Names(d), arrow);
    if a.Err? {
      return Err(a.error);
    }
    var arr := new DistributionArray(a.value, d);
    r := Ok(arr);
  }
}

/** The generic structured extension type: a dtype subclass names a numpy
    structured layout, a record for `None`, and a registered name; the array
    wraps a numpy buffer of that layout. */
module StructuredBase {
  import opened Outcomes
  import opened Values
  import opened Dicts
  import opened Columnar
  import opened Interchange

  /** A structured dtype subclass: its registered `name`, the field names
      and byte widths of its numpy layout, and `_na_values`, the record
      stored for `None`. */
  datatype StructuredDtype = StructuredDtype(name: string, names: seq<string>, itemsizes: seq<nat>, naValues: Record)

  /** What numpy guarantees of a structured layout: a byte width per field,
      no field name twice. */
  predicate ValidLayout(d: StructuredDtype)
  {
    |d.itemsizes| == |d.names| && Distinct(d.names)
  }

  /** Bytes per record: the sum of the field widths. */
  function ItemSize(sizes: seq<nat>): nat
  {
    if |sizes| == 0 then 0 else ItemSize(sizes[..|sizes| - 1]) + sizes[|sizes| - 1]
  }

  /** `construct_from_string`: only the dtype's own name, else `TypeError`. */
  function ConstructFromString(d: StructuredDtype, s: string): (r: Result<StructuredDtype>)
    ensures r.Ok? <==> s == d.name
    ensures r.Ok? ==> r.value == d
    ensures r.Err? ==> r.error == TypeError
  {
    if s == d.name then Ok(d) else Err(TypeError)
  }

  /** The record `_set_scalar` stores: `_na_values` for `None`, the value's
      own tuple otherwise; numpy refuses a tuple whose length is not the
      number of fields with `ValueError`. */
  function RecordFor(d: StructuredDtype, v: Option<Record>): (r: Result<Record>)
    ensures v.None? ==> (r.Ok? <==> |d.naValues| == |d.names|)
    ensures v.None? && r.Ok? ==> r.value == d.naValues
    ensures v.Some? ==> (r.Ok? <==> |v.value| == |d.names|)
    ensures v.Some? && r.Ok? ==> r.value == v.value
    ensures r.Err? ==> r.error == ValueError
  {
    var rec := if v.None? then d.naValues else v.value;
    if |rec| == |d.names| then Ok(rec) else Err(ValueError)
  }

  function Converter(d: StructuredDtype): Option<Record> -> Result<Record>
  {
    v => RecordFor(d, v)
  }

  /** `_set_scalar(array, index, value)`: numpy checks the index
      (`IndexError`, negative indices from the end), then converts the value. */
  method SetScalar(d: StructuredDtype, a: array<Record>, index: int, v: Option<Record>) returns (o: Outcome)
    modifies a
    ensures o == Raised(IndexError) <==> NormIndex(a.Length, index).None?
    ensures o.Done? <==> NormIndex(a.Length, index).Some? && RecordFor(d, v).Ok?
    ensures o.Raised? ==> o.error == IndexError || o.error == ValueError
    ensures o.Raised? ==> a[..] == old(a[..])
    ensures o.Done? ==> a[..] == old(a[..])[NormIndex(a.Length, index).value := RecordFor(d, v).value]
  {
    var i := NormIndex(a.Length, index);
    if i.None? {
      return Raised(IndexError);
    }
    var rec := RecordFor(d, v);
    if rec.Err? {
      return Raised(rec.error);
    }
    a[i.value] := rec.value;
    o := Done;
  }

  /** The `dtype` argument of `_from_sequence`. */
  datatype DtypeArg = NoDtype | StructuredArg(dtype: StructuredDtype) | OtherDtype

  /** The right-hand side of `==`. */
  datatype Operand = StructuredOperand(target: StructuredArray) | OtherOperand

  /** Two layouts numpy concatenates: the same fields with the same widths. */
  predicate SameLayout(a: StructuredDtype, b: StructuredDtype)
  {
    a.names == b.names && a.itemsizes == b.itemsizes
  }

  /** The rows `take` produces; an unspecified fill is the dtype's missing
      value, stored the way `_set_scalar` stores it. */
  function TakeSpec(d: StructuredDtype, rows: seq<Record>, indices: seq<int>, allowFill: bool, fill: Option<Record>): Result<seq<Record>>
  {
    if !allowFill then TakeRows(rows, indices, false, [])
    else
      match RecordFor(d, fill)
      case Err(e) => Err(e)
      case Ok(f) => TakeRows(rows, indices, true, f)
  }

  /** The rows of each array, in order. */
  function Contents(parts: seq<StructuredArray>): seq<seq<Record>>
    reads set c | 0 <= c < |parts| :: parts[c].data
  {
    seq(|parts|, c requires 0 <= c < |parts| reads if 0 <= c < |parts| then {parts[c].data} else {} =>
      parts[c].data[..])
  }

  class StructuredArray {
    const dtype: StructuredDtype
    const data: array<Record>

    /** The buffer has the dtype's layout (the constructor's assertion). */
    ghost predicate Valid()
      reads data
    {
      ValidLayout(dtype) && HasWidth(data[..], |dtype.names|)
    }

    constructor (data: array<Record>, dtype: StructuredDtype)
      requires ValidLayout(dtype) && HasWidth(data[..], |dtype.names|)
      ensures this.data == data && this.dtype == dtype
      ensures Valid()
    {
      this.data := data;
      this.dtype := dtype;
    }

    /** `_from_sequence`: a dtype is required (`ValueError`) and must be a
        structured dtype (`TypeError`); a zeroed buffer is then filled
        scalar by scalar, and the first scalar that does not fit raises. */
    static method FromSequence(scalars: seq<Option<Record>>, dtype: DtypeArg) returns (r: Result<StructuredArray>)
      requires dtype.StructuredArg? ==> ValidLayout(dtype.dtype)
      ensures dtype.NoDtype? ==> r == Err(ValueError)
      ensures dtype.OtherDtype? ==> r == Err(TypeError)
      ensures dtype.StructuredArg? ==> (r.Ok? <==> Marshal(Converter(dtype.dtype), scalars).Ok?)
      ensures dtype.StructuredArg? && r.Err? ==> r == Err(Marshal(Converter(dtype.dtype), scalars).error)
      ensures r.Ok? ==> fresh(r.value) && fresh(r.value.data) && r.value.Valid()
      ensures r.Ok? ==> r.value.dtype == dtype.dtype && r.value.data[..] == Marshal(Converter(dtype.dtype), scalars).value
    {
      if dtype.NoDtype? {
        return Err(ValueError);
      }
      if dtype.OtherDtype? {
        return Err(TypeError);
      }
      var d := dtype.dtype;
      var a := Allocate(seq(|scalars|, _ => Uniform(|d.names|, Num(0.0))));
      for i := 0 to |scalars|
        invariant forall j :: 0 <= j < i ==> RecordFor(d, scalars[j]).Ok?
        invariant forall j :: 0 <= j < i ==> a[j] == RecordFor(d, scalars[j]).value
      {
        var o := SetScalar(d, a, i, scalars[i]);
        if o.Raised? {
          MarshalFirstError(Converter(d), scalars, i);
          return Err(o.error);
        }
      }
      assert a[..] == Marshal(Converter(d), scalars).value;
      var arr := new StructuredArray(a, d);
      r := Ok(arr);
    }

    /** `len`. */
    function Length(): nat
    {
      data.Length
    }

    /** `array[i]` for an integer `i`: the record at that row (`_get_scalar`
        builds the dtype's scalar type from it). */
    method Get(index: int) returns (r: Result<Record>)
      requires Valid()
      ensures r.Ok? <==> NormIndex(data.Length, index).Some?
      ensures r.Err? ==> r.error == IndexError
      ensures r.Ok? ==> |r.value| == |dtype.names|
      ensures r.Ok? ==> r.value == data[NormIndex(data.Length, index).value]
    {
      var i := NormIndex(data.Length, index);
      if i.None? {
        return Err(IndexError);
      }
      r := Ok(data[i.value]);
    }

    /** `array[indexer]` for an integer array or a boolean mask: a new array
        holding copies of the selected rows, in selection order. */
    method Select(ix: Indexer) returns (r: Result<StructuredArray>)
      requires Valid()
      ensures r.Ok? <==> Resolve(data.Length, ix).Ok?
      ensures r.Err? ==> r.error == IndexError
      ensures r.Ok? ==> fresh(r.value) && fresh(r.value.data) && r.value.Valid() && r.value.dtype == dtype
      ensures r.Ok? ==> r.value.data[..] == Gather(data[..], Resolve(data.Length, ix).value)
    {
      var ps := Resolve(data.Length, ix);
      if ps.Err? {
        return Err(ps.error);
      }
      var a := Allocate(Gather(data[..], ps.value));
      var arr := new StructuredArray(a, dtype);
      r := Ok(arr);
    }

    /** `array[i] = value` for an integer `i`. */
    method Set(index: int, v: Option<Record>) returns (o: Outcome)
      requires Valid()
      modifies data
      ensures Valid()
      ensures o == Raised(IndexError) <==> NormIndex(data.Length, index).None?
      ensures o.Done? <==> NormIndex(data.Length, index).Some? && RecordFor(dtype, v).Ok?
      ensures o.Raised? ==> o.error == IndexError || o.error == ValueError
      ensures o.Raised? ==> data[..] == old(data[..])
      ensures o.Done? ==>
        data[..] == old(data[..])[NormIndex(data.Length, index).value := RecordFor(dtype, v).value]
    {
      o := SetScalar(dtype, data, index, v);
    }

    /** `array[indexer] = value` for an integer array or a boolean mask. */
    method SetMany(ix: Indexer, value: Bulk<Record>) returns (o: Outcome)
      requires Valid()
      modifies data
      ensures Valid()
      ensures o.Done? <==>
        Resolve(data.Length, ix).Ok? && FitsWidth(value, |dtype.names|) &&
        Spread(|Resolve(data.Length, ix).value|, value).Ok?
      ensures Resolve(data.Length, ix).Err? ==> o == Raised(IndexError)
      ensures Resolve(data.Length, ix).Ok? && o.Raised? ==> o.error == ValueError
      ensures o.Raised? ==> data[..] == old(data[..])
      ensures o.Done? ==>
        data[..] == Scatter(old(data[..]), Resolve(data.Length, ix).value,
                            Spread(|Resolve(data.Length, ix).value|, value).value)
    {
      o := AssignRows(data, |dtype.names|, ix, value);
    }

    /** `==`: another structured array of an equal dtype is compared row by
        row; anything else is `NotImplemented`. */
    method Equals(other: Operand) returns (c: Comparison)
      ensures !(other.StructuredOperand? && other.target.dtype == dtype) ==> c == NotImplemented
      ensures other.StructuredOperand? && other.target.dtype == dtype ==>
        c == CompareRows(data[..], other.target.data[..])
    {
      if !other.StructuredOperand? || other.target.dtype != dtype {
        return NotImplemented;
      }
      c := CompareRows(data[..], other.target.data[..]);
    }

    /** `nbytes`: the buffer size, the record size times the row count. */
    function Nbytes(): nat
    {
      ItemSize(dtype.itemsizes) * data.Length
    }

    /** `isna`: a row is missing when any of its fields is NaN; a layout
        without fields raises `TypeError`. */
    function IsNA(): (r: Result<seq<bool>>)
      reads data
      requires Valid()
      ensures r.Ok? <==> |dtype.names| > 0
      ensures r.Err? ==> r.error == TypeError
      ensures r.Ok? ==> |r.value| == data.Length
      ensures r.Ok? ==> forall i :: 0 <= i < data.Length ==> (r.value[i] <==> AnyNaN(data[i]))
    {
      MissingMask(data[..], |dtype.names|)
    }

    /** `copy`: a new array over a new buffer with the same rows. */
    method Copy() returns (c: StructuredArray)
      requires Valid()
      ensures fresh(c) && fresh(c.data) && c.Valid()
      ensures c.dtype == dtype && c.data[..] == data[..]
    {
      var a := Allocate(data[..]);
      c := new StructuredArray(a, dtype);
    }

    /** `_concat_same_type`: the rows of all arrays, one array after the
        other, with the first array's dtype.  numpy refuses an empty list
        (`ValueError`) and layouts that differ (`TypeError`). */
    static method ConcatSameType(parts: seq<StructuredArray>) returns (r: Result<StructuredArray>)
      requires forall c :: 0 <= c < |parts| ==> parts[c].Valid()
      ensures |parts| == 0 ==> r == Err(ValueError)
      ensures |parts| > 0 ==>
        (r.Ok? <==> forall c :: 0 <= c < |parts| ==> SameLayout(parts[c].dtype, parts[0].dtype))
      ensures |parts| > 0 && r.Err? ==> r.error == TypeError
      ensures r.Ok? ==> fresh(r.value) && fresh(r.value.data) && r.value.Valid()
      ensures r.Ok? ==> r.value.dtype == parts[0].dtype && r.value.data[..] == Flatten(Contents(parts))
    {
      if |parts| == 0 {
        return Err(ValueError);
      }
      var d := parts[0].dtype;
      ghost var contents := Contents(parts);
      var rows: seq<Record> := [];
      for c := 0 to |parts|
        invariant forall c' :: 0 <= c' < c ==> SameLayout(parts[c'].dtype, d)
        invariant rows == Flatten(contents[..c])
        invariant HasWidth(rows, |d.names|)
      {
        if !SameLayout(parts[c].dtype, d) {
          return Err(TypeError);
        }
        assert contents[c] == parts[c].data[..];
        ConcatStep(contents, c, rows, |d.names|);
        rows := rows + parts[c].data[..];
      }
      assert contents[..|parts|] == contents;
      assert rows == Flatten(contents);
      var a := Allocate(rows);
      var arr := new StructuredArray(a, d);
      assert Contents(parts) == contents;
      r := Ok(arr);
    }

    /** `take`: see `TakeRows`; with `allow_fill` and no fill value the
        dtype's missing value is used. */
    method Take(indices: seq<int>, allowFill: bool, fill: Option<Record>) returns (r: Result<StructuredArray>)
      requires Valid()
      ensures r.Ok? <==> TakeSpec(dtype, data[..], indices, allowFill, fill).Ok?
      ensures r.Err? ==> r.error == TakeSpec(dtype, data[..], indices, allowFill, fill).error
      ensures r.Ok? ==> fresh(r.value) && fresh(r.value.data) && r.value.Valid() && r.value.dtype == dtype
      ensures r.Ok? ==> r.value.data[..] == TakeSpec(dtype, data[..], indices, allowFill, fill).value
    {
      var rows := TakeSpec(dtype, data[..], indices, allowFill, fill);
      if rows.Err? {
        return Err(rows.error);
      }
      var a := Allocate(rows.value);
      var arr := new StructuredArray(a, dtype);
      r := Ok(arr);
    }

    /** `__arrow_array__`: a struct array with one child per field, from
        which `__from_arrow__` reads back the same rows. */
    method ToArrow() returns (sa: StructArray)
      requires Valid()
      ensures WellFormed(sa) && sa.names == dtype.names && sa.length == data.Length
      ensures Decode(dtype.names, Single(sa)) == Ok(data[..])
    {
      sa := Encode(dtype.names, data[..]);
      RoundTrip(dtype.names, data[..]);
    }

    /** `__getattr__`, which Python calls only for a name that ordinary
        attribute lookup does not find: a field name gives a view of that
        field sharing the buffer, and any other name raises `AttributeError`.
        A field whose name is also an attribute of the array (`shape`,
        `dtype`, `copy`, ...) is therefore not reached through it. */
    method GetAttr(name: string) returns (r: Result<FieldView>)
      requires Valid()
      ensures r.Ok? <==> name in dtype.names
      ensures r.Err? ==> r.error == AttributeError
      ensures r.Ok? ==> fresh(r.value) && r.value.storage == data && r.value.Valid()
      ensures r.Ok? ==> r.value.field < |dtype.names| && dtype.names[r.value.field] == name
    {
      var k := FieldIndex(dtype.names, name);
      if k.Err? {
        return Err(AttributeError);
      }
      var view := new FieldView(data, k.value);
      r := Ok(view);
    }
  }

  /** The `nbytes` of the arrays, added up. */
  function SumNbytes(parts: seq<StructuredArray>): nat
  {
    if |parts| == 0 then 0 else SumNbytes(parts[..|parts| - 1]) + parts[|parts| - 1].Nbytes()
  }

  /** `nbytes` of a concatenation of arrays of one layout: the parts'
      `nbytes` added up. */
  lemma ConcatNbytes(parts: seq<StructuredArray>, r: StructuredArray)
    requires |parts| > 0
    requires forall c :: 0 <= c < |parts| ==> SameLayout(parts[c].dtype, parts[0].dtype)
    requires r.dtype == parts[0].dtype && r.data[..] == Flatten(Contents(parts))
    ensures r.Length() == TotalLength(Contents(parts))
    ensures r.Nbytes() == SumNbytes(parts)
  {
    FlattenLength(Contents(parts));
    NbytesSum(parts, ItemSize(parts[0].dtype.itemsizes));
  }

  lemma {:induction false} NbytesSum(parts: seq<StructuredArray>, size: nat)
    requires forall c :: 0 <= c < |parts| ==> ItemSize(parts[c].dtype.itemsizes) == size
    ensures SumNbytes(parts) == size * TotalLength(Contents(parts))
  {
    if |parts| > 0 {
      var n := |parts| - 1;
      NbytesSum(parts[..n], size);
      assert Contents(parts)[..n] == Contents(parts[..n]);
      assert |Contents(parts)[n]| == parts[n].Length();
      assert size * (TotalLength(Contents(parts[..n])) + parts[n].Length()) ==
        size * TotalLength(Contents(parts[..n])) + size * parts[n].Length();
    }
  }

  /** `__from_arrow__`: the rows decoded from the struct array's children,
      field by field, in a new array of this dtype. */
  method FromArrow(d: StructuredDtype, arrow: ArrowData) returns (r: Result<StructuredArray>)
    requires ValidLayout(d) && ValidData(arrow)
    ensures r.Ok? <==> Decode(d.names, arrow).Ok?
    ensures r.Err? ==> r.error == KeyError
    ensures r.Ok? ==> fresh(r.value) && fresh(r.value.data) && r.value.Valid() && r.value.dtype == d
    ensures r.Ok? ==> r.value.data[..] == Decode(d.names, arrow).value
  {
    var a := Load(d.names, arrow);
    if a.Err? {
      return Err(a.error);
    }
    var arr := new StructuredArray(a.value, d);
    r := Ok(arr);
  }
}

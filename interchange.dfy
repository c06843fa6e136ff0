/** The Arrow interchange of a record buffer: `__arrow_array__` builds a
    struct array with one child column per field, and `__from_arrow__`
    combines the chunks of a chunked array and copies each child column,
    looked up by name, into a new buffer. */
module Interchange {
  import opened Outcomes
  import opened Values
  import opened Dicts
  import opened Columnar

  /** An Arrow struct array: named child columns, each `length` long. */
  datatype StructArray = StructArray(names: seq<string>, columns: seq<seq<Value>>, length: nat)

  predicate WellFormed(sa: StructArray)
  {
    |sa.columns| == |sa.names| &&
    forall k :: 0 <= k < |sa.columns| ==> |sa.columns[k]| == sa.length
  }

  /** What `__from_arrow__` receives: one struct array, or a chunked array
      whose chunks all have the chunked array's struct type. */
  datatype ArrowData = Single(array: StructArray) | Chunked(names: seq<string>, chunks: seq<StructArray>)

  predicate ChunksOf(names: seq<string>, chunks: seq<StructArray>)
  {
    forall c :: 0 <= c < |chunks| ==> WellFormed(chunks[c]) && chunks[c].names == names
  }

  predicate ValidData(data: ArrowData)
  {
    match data
    case Single(sa) => WellFormed(sa)
    case Chunked(names, chunks) => ChunksOf(names, chunks)
  }

  /** Two struct arrays of one type, one after the other. */
  function Append(a: StructArray, b: StructArray): (r: StructArray)
    requires WellFormed(a) && WellFormed(b) && a.names == b.names
    ensures WellFormed(r) && r.names == a.names
    ensures r.length == a.length + b.length
    ensures forall k :: 0 <= k < |r.columns| ==> r.columns[k] == a.columns[k] + b.columns[k]
  {
    StructArray(a.names, seq(|a.columns|, k requires 0 <= k < |a.columns| => a.columns[k] + b.columns[k]),
      a.length + b.length)
  }

  /** `combine_chunks`: every child column becomes the concatenation of that
      child over the chunks; no chunks give an empty array of the type. */
  function Combine(names: seq<string>, chunks: seq<StructArray>): (r: StructArray)
    requires ChunksOf(names, chunks)
    ensures WellFormed(r) && r.names == names
    ensures r.length == SumLengths(chunks)
  {
    if |chunks| == 0 then StructArray(names, seq(|names|, _ => []), 0)
    else Append(Combine(names, chunks[..|chunks| - 1]), chunks[|chunks| - 1])
  }

  /** The lengths of the chunks, added up. */
  function SumLengths(chunks: seq<StructArray>): nat
  {
    if |chunks| == 0 then 0 else SumLengths(chunks[..|chunks| - 1]) + chunks[|chunks| - 1].length
  }

  /** The single struct array `__from_arrow__` reads its columns from. */
  function Flat(data: ArrowData): (sa: StructArray)
    requires ValidData(data)
    ensures WellFormed(sa)
  {
    match data
    case Single(sa) => sa
    case Chunked(names, chunks) => Combine(names, chunks)
  }

  /** The positions of `name` among `names`, in increasing order. */
  function Occurrences(names: seq<string>, name: string): (ps: seq<nat>)
    ensures forall j :: 0 <= j < |ps| ==> ps[j] < |names| && names[ps[j]] == name
    ensures forall i :: 0 <= i < |names| && names[i] == name ==> i in ps
    ensures forall j, j' :: 0 <= j < j' < |ps| ==> ps[j] < ps[j']
  {
    if |names| == 0 then []
    else Occurrences(names[..|names| - 1], name) + (if names[|names| - 1] == name then [|names| - 1] else [])
  }

  /** `StructArray.field(name)`: the child of that name; a name that no
      child, or more than one child, carries raises `KeyError`. */
  function FieldIndex(names: seq<string>, name: string): (r: Result<nat>)
    ensures r.Ok? <==> Unique(names, name)
    ensures r.Ok? ==> r.value < |names| && names[r.value] == name
    ensures r.Err? ==> r.error == KeyError
  {
    var ps := Occurrences(names, name);
    OccursOnce(names, name);
    if |ps| == 1 then Ok(ps[0]) else Err(KeyError)
  }

  /** `name` is carried by exactly one of `names`. */
  predicate Unique(names: seq<string>, name: string)
  {
    (exists j :: 0 <= j < |names| && names[j] == name) &&
    (forall j, j' :: 0 <= j < |names| && 0 <= j' < |names| && names[j] == name && names[j'] == name ==> j == j')
  }

  lemma OccursOnce(names: seq<string>, name: string)
    ensures |Occurrences(names, name)| == 1 <==> Unique(names, name)
  {
    var ps := Occurrences(names, name);
    if |ps| == 1 {
      OnceIsUnique(names, name, ps);
    } else {
      NotOnceNotUnique(names, name, ps);
    }
  }

  lemma NotOnceNotUnique(names: seq<string>, name: string, ps: seq<nat>)
    requires ps == Occurrences(names, name) && |ps| != 1
    ensures !Unique(names, name)
  {
    if |ps| == 0 {
      assert forall j :: 0 <= j < |names| && names[j] == name ==> j in ps;
    } else {
      assert ps[0] != ps[1];
      assert names[ps[0]] == name && names[ps[1]] == name;
    }
  }

  lemma OnceIsUnique(names: seq<string>, name: string, ps: seq<nat>)
    requires ps == Occurrences(names, name) && |ps| == 1
    ensures Unique(names, name)
  {
    forall j | 0 <= j < |names| && names[j] == name ensures j == ps[0] {
      assert j in ps;
    }
  }

  /** Among distinct names, each name is found at its own position. */
  lemma FieldIndexDistinct(names: seq<string>, k: nat)
    requires Distinct(names) && k < |names|
    ensures FieldIndex(names, names[k]) == Ok(k)
  {
  }

  /** `__arrow_array__`: one child column per field, in layout order. */
  function Encode(names: seq<string>, rows: seq<Record>): (sa: StructArray)
    requires HasWidth(rows, |names|)
    ensures WellFormed(sa) && sa.names == names && sa.length == |rows|
  {
    StructArray(names, seq(|names|, k requires 0 <= k < |names| => Column(rows, k)), |rows|)
  }

  /** The rows `__from_arrow__` builds for a layout with fields `names`:
      field `k` of row `i` is row `i` of the child named `names[k]`.  A
      field without exactly one child of its name raises `KeyError`. */
  function Decode(names: seq<string>, data: ArrowData): (r: Result<seq<Record>>)
    requires ValidData(data)
    ensures r.Ok? <==> forall k :: 0 <= k < |names| ==> FieldIndex(Flat(data).names, names[k]).Ok?
    ensures r.Err? ==> r.error == KeyError
    ensures r.Ok? ==> |r.value| == Flat(data).length && HasWidth(r.value, |names|)
    ensures r.Ok? ==> forall i, k :: 0 <= i < |r.value| && 0 <= k < |names| ==>
      exists j :: 0 <= j < |Flat(data).names| && Flat(data).names[j] == names[k] &&
        r.value[i][k] == Flat(data).columns[j][i]
  {
    var sa := Flat(data);
    if forall k :: 0 <= k < |names| ==> FieldIndex(sa.names, names[k]).Ok? then
      Ok(seq(sa.length, i requires 0 <= i < sa.length =>
        seq(|names|, k requires 0 <= k < |names| => sa.columns[FieldIndex(sa.names, names[k]).value][i])))
    else Err(KeyError)
  }

  /** Reading back what `__arrow_array__` wrote gives the same rows. */
  lemma RoundTrip(names: seq<string>, rows: seq<Record>)
    requires Distinct(names) && HasWidth(rows, |names|)
    ensures Decode(names, Single(Encode(names, rows))) == Ok(rows)
  {
    var r := Decode(names, Single(Encode(names, rows)));
    forall k | 0 <= k < |names| ensures FieldIndex(names, names[k]) == Ok(k) {
      FieldIndexDistinct(names, k);
    }
    var sa := Encode(names, rows);
    assert Flat(Single(sa)) == sa;
    assert r.Ok?;
    forall i | 0 <= i < |rows| ensures r.value[i] == rows[i] {
      forall k | 0 <= k < |names| ensures r.value[i][k] == rows[i][k] {
        assert r.value[i][k] == sa.columns[FieldIndex(names, names[k]).value][i];
      }
      assert |r.value[i]| == |names| == |rows[i]|;
    }
    assert |r.value| == |rows|;
    assert r.value == rows;
  }

  lemma AppendEncode(names: seq<string>, a: seq<Record>, b: seq<Record>)
    requires HasWidth(a, |names|) && HasWidth(b, |names|)
    ensures Append(Encode(names, a), Encode(names, b)) == Encode(names, a + b)
  {
    forall k | 0 <= k < |names| ensures Column(a, k) + Column(b, k) == Column(a + b, k) {
    }
  }

  lemma {:induction false} FlattenWidth(parts: seq<seq<Record>>, width: nat)
    requires forall c :: 0 <= c < |parts| ==> HasWidth(parts[c], width)
    ensures HasWidth(Flatten(parts), width)
    decreases |parts|
  {
    if |parts| > 0 {
      FlattenWidth(parts[..|parts| - 1], width);
    }
  }

  /** Combining the chunks of an encoded table gives the encoding of all
      their rows together. */
  lemma {:induction false} CombineEncoded(names: seq<string>, parts: seq<seq<Record>>)
    requires forall c :: 0 <= c < |parts| ==> HasWidth(parts[c], |names|)
    ensures ChunksOf(names, seq(|parts|, c requires 0 <= c < |parts| => Encode(names, parts[c])))
    ensures HasWidth(Flatten(parts), |names|)
    ensures Combine(names, seq(|parts|, c requires 0 <= c < |parts| => Encode(names, parts[c])))
      == Encode(names, Flatten(parts))
    decreases |parts|
  {
    FlattenWidth(parts, |names|);
    var chunks := seq(|parts|, c requires 0 <= c < |parts| => Encode(names, parts[c]));
    if |parts| == 0 {
      assert Encode(names, []) == StructArray(names, seq(|names|, _ => []), 0);
    } else {
      var front := parts[..|parts| - 1];
      CombineEncoded(names, front);
      FlattenWidth(front, |names|);
      assert chunks[..|chunks| - 1] == seq(|front|, c requires 0 <= c < |front| => Encode(names, front[c]));
      AppendEncode(names, Flatten(front), parts[|parts| - 1]);
    }
  }

  /** Reading back a chunked table whose chunks were each written by
      `__arrow_array__` gives all their rows, chunk after chunk. */
  lemma ChunkedRoundTrip(names: seq<string>, parts: seq<seq<Record>>)
    requires Distinct(names)
    requires forall c :: 0 <= c < |parts| ==> HasWidth(parts[c], |names|)
    ensures ValidData(Chunked(names, seq(|parts|, c requires 0 <= c < |parts| => Encode(names, parts[c]))))
    ensures Decode(names, Chunked(names, seq(|parts|, c requires 0 <= c < |parts| => Encode(names, parts[c]))))
      == Ok(Flatten(parts))
  {
    CombineEncoded(names, parts);
    RoundTrip(names, Flatten(parts));
  }

  /** `__from_arrow__`'s loop: a new buffer of the combined length, then
      every field written from its child column through a field view.
      The buffer's initial contents (`np.empty`) are overwritten field by
      field, so any initial record would do; the missing record is used. */
  method Load(names: seq<string>, data: ArrowData) returns (r: Result<array<Record>>)
    requires ValidData(data)
    ensures r.Ok? <==> Decode(names, data).Ok?
    ensures r.Err? ==> r.error == KeyError
    ensures r.Ok? ==> fresh(r.value) && r.value[..] == Decode(names, data).value
  {
    r := WriteFields(names, Flat(data));
    if r.Ok? {
      var rows := Decode(names, data).value;
      forall i | 0 <= i < |rows| ensures r.value[i] == rows[i] {
        forall k | 0 <= k < |names| ensures r.value[i][k] == rows[i][k] {
          DecodeAt(names, data, i, k);
        }
      }
    }
  }

  /** The loop itself: each field written from its child column. */
  method WriteFields(names: seq<string>, sa: StructArray) returns (r: Result<array<Record>>)
    requires WellFormed(sa)
    ensures r.Ok? <==> forall k :: 0 <= k < |names| ==> FieldIndex(sa.names, names[k]).Ok?
    ensures r.Err? ==> r.error == KeyError
    ensures r.Ok? ==> fresh(r.value) && r.value.Length == sa.length && HasWidth(r.value[..], |names|)
    ensures r.Ok? ==> forall i, k :: 0 <= i < sa.length && 0 <= k < |names| ==>
      r.value[i][k] == sa.columns[FieldIndex(sa.names, names[k]).value][i]
  {
    var storage := Allocate(seq(sa.length, _ => Uniform(|names|, NaN)));
    for k := 0 to |names|
      invariant storage.Length == sa.length
      invariant HasWidth(storage[..], |names|)
      invariant forall k' :: 0 <= k' < k ==> FieldIndex(sa.names, names[k']).Ok?
      invariant forall i, k' :: 0 <= i < sa.length && 0 <= k' < k ==>
        storage[i][k'] == sa.columns[FieldIndex(sa.names, names[k']).value][i]
    {
      var j := FieldIndex(sa.names, names[k]);
      if j.Err? {
        return Err(j.error);
      }
      var col := sa.columns[j.value];
      var view := new FieldView(storage, k);
      ghost var before := storage[..];
      var o := view.Assign(Items(col));
      WriteFieldStep(names, sa, k, before, storage[..]);
    }
    r := Ok(storage);
  }

  /** Writing field `k` from its child column extends the fields already
      written by one. */
  lemma WriteFieldStep(names: seq<string>, sa: StructArray, k: nat, before: seq<Record>, after: seq<Record>)
    requires WellFormed(sa) && k < |names| && |before| == sa.length && HasWidth(before, |names|)
    requires forall k' :: 0 <= k' <= k ==> FieldIndex(sa.names, names[k']).Ok?
    requires forall i, k' :: 0 <= i < sa.length && 0 <= k' < k ==>
      before[i][k'] == sa.columns[FieldIndex(sa.names, names[k']).value][i]
    requires after == WithColumn(before, k, sa.columns[FieldIndex(sa.names, names[k]).value])
    ensures forall i, k' :: 0 <= i < sa.length && 0 <= k' <= k ==>
      after[i][k'] == sa.columns[FieldIndex(sa.names, names[k']).value][i]
  {
  }

  /** One cell of the decoded rows: the named field's child column at that row. */
  lemma DecodeAt(names: seq<string>, data: ArrowData, i: nat, k: nat)
    requires ValidData(data) && Decode(names, data).Ok?
    requires i < Flat(data).length && k < |names|
    ensures FieldIndex(Flat(data).names, names[k]).Ok?
    ensures Decode(names, data).value[i][k] == Flat(data).columns[FieldIndex(Flat(data).names, names[k]).value][i]
  {
  }
}

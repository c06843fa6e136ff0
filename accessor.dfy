/** The `.dist` accessor on a Series of distributions: field columns by
    name, assignment to a field (a scalar, a sequence, or a Series aligned
    by index label), and unpacking into one column per field. */
module Accessor {
  import opened Outcomes
  import opened Values
  import opened Dicts
  import opened Columnar
  import opened DistributionBase
  import opened DistributionArrays
  import opened Interchange

  /** An index label. */
  type Label = int

  /** What a Series holds. */
  datatype HostValues = DistributionValues(target: DistributionArray) | OtherValues

  /** The object the accessor is looked up on. */
  datatype HostObject = SeriesOf(index: seq<Label>, values: HostValues) | NotASeries

  /** A Series of distributions: one label per row. */
  ghost predicate SeriesInvariant(obj: HostObject)
    reads if obj.SeriesOf? && obj.values.DistributionValues? then {obj.values.target.data} else {}
  {
    obj.SeriesOf? && obj.values.DistributionValues? ==>
      obj.values.target.Valid() && |obj.index| == obj.values.target.data.Length
  }

  /** The right-hand side of `series.dist[key] = value`. */
  datatype Assignment =
    | Scalar(v: Value)
    | Sequence(vs: seq<Value>)
    | Aligned(labels: seq<Label>, values: seq<Value>)

  /** A field column returned by `series.dist[key]`: the field view under the
      Series' index, named after the field. */
  datatype FieldSeries = FieldSeries(name: string, index: seq<Label>, view: FieldView)

  // ---------------------------------------------------------------------
  // Alignment by label

  /** The position of label `wanted` in `index`, or -1. */
  function Position(index: seq<Label>, wanted: Label): (p: int)
    ensures p == -1 <==> wanted !in index
    ensures p != -1 ==> 0 <= p < |index| && index[p] == wanted
  {
    if |index| == 0 then -1
    else if index[|index| - 1] == wanted then |index| - 1
    else Position(index[..|index| - 1], wanted)
  }

  /** `index.get_indexer(labels)`: where each label sits in the index, -1
      for a label it lacks; a non-unique index raises `InvalidIndexError`. */
  function GetIndexer(index: seq<Label>, labels: seq<Label>): (r: Result<seq<int>>)
    ensures r.Ok? <==> Distinct(index)
    ensures r.Err? ==> r.error == InvalidIndexError
    ensures r.Ok? ==> |r.value| == |labels|
    ensures r.Ok? ==> forall j :: 0 <= j < |labels| ==> (r.value[j] == -1 <==> labels[j] !in index)
    ensures r.Ok? ==> forall j :: 0 <= j < |labels| && r.value[j] != -1 ==>
      0 <= r.value[j] < |index| && index[r.value[j]] == labels[j]
  {
    if Distinct(index) then Ok(seq(|labels|, j requires 0 <= j < |labels| => Position(index, labels[j])))
    else Err(InvalidIndexError)
  }

  /** `indices >= 0`. */
  function Kept(indices: seq<int>): seq<bool>
  {
    seq(|indices|, j requires 0 <= j < |indices| => indices[j] >= 0)
  }

  /** `indices[mask]` and `values[mask]` for `mask = indices >= 0`. */
  function Matched(indices: seq<int>, values: seq<Value>): (r: (seq<nat>, seq<Value>))
    requires |indices| == |values|
    ensures |r.0| == |r.1|
    ensures forall t :: 0 <= t < |r.0| ==> r.0[t] in indices
  {
    if |indices| == 0 then ([], [])
    else
      var front := Matched(indices[..|indices| - 1], values[..|values| - 1]);
      var last := indices[|indices| - 1];
      if last >= 0 then (front.0 + [last as nat], front.1 + [values[|values| - 1]]) else front
  }

  /** The matched pairs are the pairs at the positions the mask
      `indices >= 0` selects, in increasing order of position. */
  lemma {:induction false} MatchedPairs(indices: seq<int>, values: seq<Value>)
    requires |indices| == |values|
    ensures |Matched(indices, values).0| == |Selected(Kept(indices))|
    ensures forall t :: 0 <= t < |Selected(Kept(indices))| ==>
      Matched(indices, values).0[t] == indices[Selected(Kept(indices))[t]] &&
      Matched(indices, values).1[t] == values[Selected(Kept(indices))[t]]
  {
    if |indices| > 0 {
      var n := |indices| - 1;
      var fi, fv := indices[..n], values[..n];
      MatchedPairs(fi, fv);
      assert Kept(indices)[..n] == Kept(fi);
      var js := Selected(Kept(fi));
      var tail: seq<nat> := if indices[n] >= 0 then [n] else [];
      assert Selected(Kept(indices)) == js + tail;
      var front := Matched(fi, fv);
      var m := Matched(indices, values);
      forall t | 0 <= t < |js| ensures m.0[t] == indices[js[t]] && m.1[t] == values[js[t]] {
        assert m.0[t] == front.0[t] && m.1[t] == front.1[t];
        assert fi[js[t]] == indices[js[t]] && fv[js[t]] == values[js[t]];
      }
    }
  }

  /** The last position `j` with `indices[j] == i`. */
  function LastHit(indices: seq<int>, i: nat): (r: Option<nat>)
    ensures r.Some? ==> r.value < |indices| && indices[r.value] == i
    ensures r.Some? ==> forall k :: r.value < k < |indices| ==> indices[k] != i
    ensures r.None? <==> forall k :: 0 <= k < |indices| ==> indices[k] != i
  {
    if |indices| == 0 then None
    else if indices[|indices| - 1] == i then Some(|indices| - 1)
    else LastHit(indices[..|indices| - 1], i)
  }

  /** The last position `j` with `labels[j] == wanted`. */
  function LastLabel(labels: seq<Label>, wanted: Label): (r: Option<nat>)
    ensures r.Some? ==> r.value < |labels| && labels[r.value] == wanted
    ensures r.Some? ==> forall k :: r.value < k < |labels| ==> labels[k] != wanted
    ensures r.None? <==> wanted !in labels
  {
    if |labels| == 0 then None
    else if labels[|labels| - 1] == wanted then Some(|labels| - 1)
    else LastLabel(labels[..|labels| - 1], wanted)
  }

  lemma ScatterAppend<T>(xs: seq<T>, ps: seq<nat>, vs: seq<T>, p: nat, v: T)
    requires |ps| == |vs| && p < |xs|
    requires forall j :: 0 <= j < |ps| ==> ps[j] < |xs|
    ensures Scatter(xs, ps + [p], vs + [v]) == Scatter(xs, ps, vs)[p := v]
  {
    assert (ps + [p])[..|ps|] == ps;
    assert (vs + [v])[..|vs|] == vs;
  }

  /** Writing the matched pairs leaves in row `i` the value of the last
      pair aimed at it, or the old value when none is. */
  lemma {:induction false} ScatterMatched(col: seq<Value>, indices: seq<int>, values: seq<Value>, i: nat)
    requires |indices| == |values| && i < |col|
    requires forall j :: 0 <= j < |indices| ==> -1 <= indices[j] < |col|
    ensures forall t :: 0 <= t < |Matched(indices, values).0| ==> Matched(indices, values).0[t] < |col|
    ensures Scatter(col, Matched(indices, values).0, Matched(indices, values).1)[i] ==
      match LastHit(indices, i) case None => col[i] case Some(j) => values[j]
  {
    ScatterMatchedBound(col, indices, values);
    if |indices| > 0 {
      var n := |indices| - 1;
      var fi, fv := indices[..n], values[..n];
      ScatterMatched(col, fi, fv, i);
      var front := Matched(fi, fv);
      var last := indices[n];
      if last >= 0 {
        assert Matched(indices, values) == (front.0 + [last as nat], front.1 + [values[n]]);
        ScatterAppend(col, front.0, front.1, last as nat, values[n]);
      } else {
        assert Matched(indices, values) == front;
      }
      match LastHit(fi, i)
      case None =>
      case Some(j) => assert fv[j] == values[j];
    }
  }

  lemma {:induction false} LastHitIsLastLabel(index: seq<Label>, labels: seq<Label>, i: nat)
    requires Distinct(index) && i < |index|
    ensures LastHit(GetIndexer(index, labels).value, i) == LastLabel(labels, index[i])
    decreases |labels|
  {
    if |labels| > 0 {
      var front := labels[..|labels| - 1];
      LastHitIsLastLabel(index, front, i);
      assert GetIndexer(index, labels).value[..|labels| - 1] == GetIndexer(index, front).value;
    }
  }

  /** The field column after `array[indices[mask]] = values[mask]` with
      `indices = index.get_indexer(labels)`: every row whose label occurs
      among `labels` takes the value at the last occurrence of its label;
      the other rows keep their value, and labels not in the index are
      ignored. */
  function AlignedColumn(col: seq<Value>, index: seq<Label>, labels: seq<Label>, values: seq<Value>): (r: seq<Value>)
    requires Distinct(index) && |col| == |index| && |labels| == |values|
    ensures |r| == |col|
    ensures forall i :: 0 <= i < |col| ==>
      r[i] == match LastLabel(labels, index[i]) case None => col[i] case Some(j) => values[j]
  {
    var indices := GetIndexer(index, labels).value;
    AlignedAll(col, index, labels, values);
    Scatter(col, Matched(indices, values).0, Matched(indices, values).1)
  }

  lemma AlignedAll(col: seq<Value>, index: seq<Label>, labels: seq<Label>, values: seq<Value>)
    requires Distinct(index) && |col| == |index| && |labels| == |values|
    ensures var indices := GetIndexer(index, labels).value;
      (forall t :: 0 <= t < |Matched(indices, values).0| ==> Matched(indices, values).0[t] < |col|) &&
      forall i :: 0 <= i < |col| ==>
        Scatter(col, Matched(indices, values).0, Matched(indices, values).1)[i] ==
          match LastLabel(labels, index[i]) case None => col[i] case Some(j) => values[j]
  {
    var indices := GetIndexer(index, labels).value;
    if |col| == 0 {
      ScatterMatchedBound(col, indices, values);
    }
    forall i | 0 <= i < |col|
      ensures (forall t :: 0 <= t < |Matched(indices, values).0| ==> Matched(indices, values).0[t] < |col|) &&
        Scatter(col, Matched(indices, values).0, Matched(indices, values).1)[i] ==
          match LastLabel(labels, index[i]) case None => col[i] case Some(j) => values[j]
    {
      ScatterMatched(col, indices, values, i);
      LastHitIsLastLabel(index, labels, i);
    }
  }

  lemma ScatterMatchedBound(col: seq<Value>, indices: seq<int>, values: seq<Value>)
    requires |indices| == |values|
    requires forall j :: 0 <= j < |indices| ==> -1 <= indices[j] < |col|
    ensures forall t :: 0 <= t < |Matched(indices, values).0| ==> Matched(indices, values).0[t] < |col|
  {
  }

  // ---------------------------------------------------------------------
  // The accessor

  class DistributionSeriesAccessor {
    const index: seq<Label>
    const target: DistributionArray

    ghost predicate Valid()
      reads target.data
    {
      target.Valid() && |index| == target.data.Length
    }

    constructor (index: seq<Label>, target: DistributionArray)
      requires target.Valid() && |index| == target.data.Length
      ensures this.index == index && this.target == target
      ensures Valid()
    {
      this.index := index;
      this.target := target;
    }

    /** Looking up `.dist`: only a Series of distributions has it; on any
        other object the lookup raises `AttributeError`. */
    static method Attach(obj: HostObject) returns (r: Result<DistributionSeriesAccessor>)
      requires SeriesInvariant(obj)
      ensures r.Ok? <==> obj.SeriesOf? && obj.values.DistributionValues?
      ensures r.Err? ==> r.error == AttributeError
      ensures r.Ok? ==> fresh(r.value) && r.value.Valid()
      ensures r.Ok? ==> r.value.target == obj.values.target && r.value.index == obj.index
    {
      if !obj.SeriesOf? || !obj.values.DistributionValues? {
        return Err(AttributeError);
      }
      var acc := new DistributionSeriesAccessor(obj.index, obj.values.target);
      r := Ok(acc);
    }

    /** `series.dist[key]`: the field's view over the Series' index; an
        unknown field raises `KeyError`. */
    method GetItem(key: string) returns (r: Result<FieldSeries>)
      requires Valid()
      ensures r.Ok? <==> key in Names(target.dtype)
      ensures r.Err? ==> r.error == KeyError
      ensures r.Ok? ==> r.value.name == key && r.value.index == index
      ensures r.Ok? ==> fresh(r.value.view) && r.value.view.storage == target.data && r.value.view.Valid()
      ensures r.Ok? ==> r.value.view.field < Width(target.dtype) && Names(target.dtype)[r.value.view.field] == key
    {
      var view := target.ViewField(key);
      if view.Err? {
        return Err(view.error);
      }
      r := Ok(FieldSeries(key, index, view.value));
    }

    /** `series.dist[key] = value`, written through the field view into the
        Series' own array.  A scalar fills the field; a sequence must have
        one value per row, or a single value (`ValueError` otherwise); a
        Series is aligned on index labels.  Only field `key` changes. */
    method SetItem(key: string, value: Assignment) returns (o: Outcome)
      requires Valid()
      requires value.Aligned? ==> |value.labels| == |value.values|
      modifies target.data
      ensures Valid()
      ensures key !in Names(target.dtype) ==> o == Raised(KeyError)
      ensures o.Raised? ==> target.data[..] == old(target.data[..])
      ensures key in Names(target.dtype) && value.Scalar? ==>
        o == Done &&
        target.data[..] == WithColumn(old(target.data[..]), FieldOf(target.dtype, key),
                                      seq(|index|, _ => value.v))
      ensures key in Names(target.dtype) && value.Sequence? ==>
        (o.Done? <==> |value.vs| == |index| || |value.vs| == 1) &&
        (o.Raised? ==> o.error == ValueError)
      ensures key in Names(target.dtype) && value.Sequence? && o.Done? ==>
        target.data[..] == WithColumn(old(target.data[..]), FieldOf(target.dtype, key),
                                      Spread(|index|, Items(value.vs)).value)
      ensures key in Names(target.dtype) && value.Aligned? ==>
        (o.Done? <==> Distinct(index)) && (o.Raised? ==> o.error == InvalidIndexError)
      ensures key in Names(target.dtype) && value.Aligned? && o.Done? ==>
        var k := FieldOf(target.dtype, key);
        HasField(old(target.data[..]), k) &&
        target.data[..] == WithColumn(old(target.data[..]), k,
                                      AlignedColumn(Column(old(target.data[..]), k), index, value.labels, value.values))
    {
      var view := target.ViewField(key);
      if view.Err? {
        return Raised(view.error);
      }
      var v := view.value;
      FieldIndexDistinct(Names(target.dtype), v.field);
      match value
      case Scalar(x) =>
        o := v.Assign(Broadcast(x));
      case Sequence(xs) =>
        o := v.Assign(Items(xs));
      case Aligned(labels, values) =>
        var indices := GetIndexer(index, labels);
        if indices.Err? {
          return Raised(indices.error);
        }
        ghost var col := Column(target.data[..], v.field);
        AlignedAll(col, index, labels, values);
        var (ps, vs) := Matched(indices.value, values);
        v.Put(ps, vs);
        o := Done;
    }

    /** `unpack`: one column per field, in field order, each holding that
        field of every row. */
    method Unpack() returns (cols: seq<(string, seq<Value>)>)
      requires Valid()
      ensures |cols| == Width(target.dtype)
      ensures forall k :: 0 <= k < |cols| ==>
        cols[k].0 == Names(target.dtype)[k] && cols[k].1 == Column(target.data[..], k)
    {
      var names := Names(target.dtype);
      cols := [];
      for k := 0 to |names|
        invariant |cols| == k
        invariant forall k' :: 0 <= k' < k ==> cols[k'].0 == names[k'] && cols[k'].1 == Column(target.data[..], k')
      {
        var view := target.ViewField(names[k]);
        FieldIndexDistinct(names, k);
        cols := cols + [(names[k], view.value.Values())];
      }
    }
  }
}

/** End-to-end uses of the model, following the repository's tests: each
    method builds the objects the test builds and its postcondition is the
    test's assertion. */
module Scenarios {
  import opened Outcomes
  import opened Values
  import opened Dicts
  import opened Columnar
  import opened Interchange
  import opened DistributionBase
  import opened DistributionArrays
  import opened Accessor
  import opened StructuredBase
  import L = LogNormalVariant
  import C = CategoricalVariant

  /** `pd.Series(index=range(n), dtype=d)`: `n` missing scalars. */
  method MissingSeries(n: nat, d: DistributionDtype) returns (acc: DistributionSeriesAccessor)
    requires ValidDtype(d)
    ensures fresh(acc) && fresh(acc.target) && fresh(acc.target.data) && acc.Valid()
    ensures acc.target.dtype == d && acc.target.data.Length == n && |acc.index| == n
    ensures forall i :: 0 <= i < n ==> acc.target.data[i] == Uniform(Width(d), NaN)
  {
    var arr := DistributionArray.FromSequence(seq(n, _ => None), Some(d));
    assert arr.Ok?;
    var labels := seq(n, i => i);
    acc := new DistributionSeriesAccessor(labels, arr.value);
  }

  /** A series named `dist[lognorm]` whose `mu` is set from a list and whose
      `sigma` is set from a scalar holds `LogNormal(3.0, 0.1)` at row 2. */
  method LogNormalFromName() returns (x: Result<Distribution>)
    ensures x == Ok(LogNormalValue(L.LogNormal(Num(3.0), Num(0.1))))
  {
    var found := FindLogNormalByName();
    var acc := MissingSeries(5, found.value.value);
    FillLogNormal(acc);
    x := acc.target.Get(2);
  }

  /** `s.dist["mu"] = [1.0, 2.0, 3.0, 4.0, 5.0]`, then `s.dist["sigma"] = 0.1`
      on a five-row log-normal series: row 2 becomes `(3.0, 0.1)`. */
  method FillLogNormal(acc: DistributionSeriesAccessor)
    requires acc.Valid() && acc.target.dtype == LogNormalDtype && acc.target.data.Length == 5
    modifies acc.target.data
    ensures acc.Valid() && acc.target.data[2] == [Num(3.0), Num(0.1)]
  {
    var mu := [Num(1.0), Num(2.0), Num(3.0), Num(4.0), Num(5.0)];
    ghost var s0 := acc.target.data[..];
    var o1 := acc.SetItem("mu", Sequence(mu));
    assert Spread(5, Items(mu)).value == mu;
    ghost var s1 := acc.target.data[..];
    assert s1[2] == s0[2][0 := Num(3.0)];
    var o2 := acc.SetItem("sigma", Scalar(Num(0.1)));
    assert acc.target.data[2] == s1[2][1 := Num(0.1)];
  }

  /** The registry resolves `dist[lognorm]` to the log-normal dtype. */
  method FindLogNormalByName() returns (found: Result<Option<DistributionDtype>>)
    ensures found == Ok(Some(LogNormalDtype))
  {
    FindByName(LogNormalDtype);
    found := FindDtype("dist[lognorm]");
  }

  /** `view_field` shares the buffer: writing `mu` and `sigma` through field
      views of an empty log-normal array makes row 8 `LogNormal(8.0, 2.0)`. */
  method LogNormalThroughViews() returns (x: Result<Distribution>)
    ensures x == Ok(LogNormalValue(L.LogNormal(Num(8.0), Num(2.0))))
  {
    var arr := DistributionArray.Empty(10, LogNormalDtype);
    FillThroughViews(arr);
    x := arr.Get(8);
  }

  /** `arr.view_field("mu")[:] = range(10)`, then
      `arr.view_field("sigma")[:] = 2.0`: row 8 becomes `(8.0, 2.0)`. */
  method FillThroughViews(arr: DistributionArray)
    requires arr.Valid() && arr.dtype == LogNormalDtype && arr.data.Length == 10
    modifies arr.data
    ensures arr.Valid() && arr.data[8] == [Num(8.0), Num(2.0)]
  {
    var mu := arr.ViewField("mu");
    assert mu.value.field == 0;
    var col := seq(10, i => Num(i as real));
    WriteRow8(arr, mu.value, Items(col), Num(8.0));
    var sigma := arr.ViewField("sigma");
    assert sigma.value.field == 1;
    ghost var mu8 := arr.data[8][0];
    WriteRow8(arr, sigma.value, Broadcast(Num(2.0)), Num(2.0));
    assert arr.data[8] == [mu8, Num(2.0)];
  }

  /** Assigning through a view of a ten-row log-normal array whose
      assignment puts `v` at row 8: row 8 keeps its other field. */
  method WriteRow8(arr: DistributionArray, view: FieldView, value: Bulk<Value>, v: Value)
    requires arr.Valid() && arr.dtype == LogNormalDtype && arr.data.Length == 10
    requires view.storage == arr.data && view.field < 2
    requires Spread(10, value).Ok? && Spread(10, value).value[8] == v
    modifies arr.data
    ensures arr.Valid() && arr.data[8] == old(arr.data[8])[view.field := v]
  {
    var o := view.Assign(value);
  }

  /** A series named `dist[categorical, a, b]`, `a` set from a list and `b`
      from a scalar, gives `{"a": 0.9, "b": 0.1}` for row 2. */
  method CategoricalFromName() returns (m: map<string, Value>)
    ensures m == map["a" := Num(0.9), "b" := Num(0.1)]
  {
    var found := FindCategoricalByName();
    var d := found.value.value;
    C.TwoFieldsValid();
    var acc := MissingSeries(7, d);
    FillCategorical(acc);
    var x := acc.target.Get(2);
    assert x.value == CategoricalValue(C.Categorical([Num(0.9), Num(0.1)], d.categorical));
    TwoFieldDict(d.categorical);
    m := ToDict(x.value);
  }

  /** `s.dist["a"] = [0.9] * 7`, then `s.dist["b"] = 0.1` on a seven-row
      series with fields `a` and `b`: row 2 becomes `(0.9, 0.1)`. */
  method FillCategorical(acc: DistributionSeriesAccessor)
    requires acc.Valid() && Names(acc.target.dtype) == ["a", "b"] && acc.target.data.Length == 7
    modifies acc.target.data
    ensures acc.Valid() && acc.target.data[2] == [Num(0.9), Num(0.1)]
  {
    ghost var s0 := acc.target.data[..];
    var col := seq(7, _ => Num(0.9));
    var o1 := acc.SetItem("a", Sequence(col));
    assert Spread(7, Items(col)).value == col;
    ghost var s1 := acc.target.data[..];
    assert s1[2] == s0[2][0 := Num(0.9)];
    var o2 := acc.SetItem("b", Scalar(Num(0.1)));
    assert acc.target.data[2] == s1[2][1 := Num(0.1)];
  }

  /** The registry resolves `dist[categorical, a, b]` to the dtype with
      fields `a` and `b`. */
  method FindCategoricalByName() returns (found: Result<Option<DistributionDtype>>)
    ensures found == Ok(Some(CategoricalDtypeOf(C.CategoricalDtype(["a", "b"]))))
  {
    var d := CategoricalDtypeOf(C.CategoricalDtype(["a", "b"]));
    C.TwoFieldsValid();
    C.TwoFieldsName();
    FindByName(d);
    found := FindDtype("dist[categorical, a, b]");
  }

  lemma TwoFieldDict(c: C.CategoricalDtype)
    requires c.names == ["a", "b"]
    ensures ToDict(CategoricalValue(C.Categorical([Num(0.9), Num(0.1)], c))) == map["a" := Num(0.9), "b" := Num(0.1)]
  {
    var x := CategoricalValue(C.Categorical([Num(0.9), Num(0.1)], c));
    C.TwoFieldsValid();
    ToDictAt(x, 0);
    ToDictAt(x, 1);
    assert ToDict(x).Keys == {"a", "b"};
  }

  /** A structured dtype with an integer field `a`, a float field `b` and
      `(0, NaN)` as its missing record: a series of missing values is
      missing in every row. */
  method StructuredAllMissing() returns (mask: Result<seq<bool>>)
    ensures mask.Ok? && |mask.value| == 10
    ensures forall i :: 0 <= i < 10 ==> mask.value[i]
  {
    var foo := StructuredDtype("foo", ["a", "b"], [4, 8], [Num(0.0), NaN]);
    var arr := StructuredArray.FromSequence(seq(10, _ => None), StructuredArg(foo));
    assert arr.Ok?;
    forall i | 0 <= i < 10 ensures AnyNaN(arr.value.data[i]) {
      assert IsNaN(arr.value.data[i][1]);
    }
    mask := arr.value.IsNA();
  }

  /** `take([-1], allow_fill=True)` gives one missing row. */
  method TakeFill(arr: DistributionArray) returns (r: Result<DistributionArray>)
    requires arr.Valid() && Width(arr.dtype) > 0
    ensures r.Ok? && r.value.data.Length == 1 && r.value.Valid()
    ensures r.value.IsNA() == Ok([true])
  {
    r := arr.Take([-1], true, None);
    assert r.value.data[0] == Uniform(Width(arr.dtype), NaN);
    assert IsNaN(r.value.data[0][0]);
    var m := r.value.IsNA();
    assert m.Ok? && |m.value| == 1 && m.value[0];
    assert m.value == [true];
  }

  /** Concatenating three rows and two rows of one dtype gives five rows,
      the first array's followed by the second's. */
  method ConcatTwo(a: DistributionArray, b: DistributionArray) returns (r: Result<DistributionArray>)
    requires a.Valid() && b.Valid() && a.dtype == b.dtype
    requires a.data.Length == 3 && b.data.Length == 2
    ensures r.Ok? && r.value.data.Length == 5
    ensures r.value.data[..] == a.data[..] + b.data[..]
  {
    r := DistributionArray.ConcatSameType([a, b]);
    ghost var parts := DistributionArrays.Contents([a, b]);
    assert parts[0] == a.data[..] && parts[1] == b.data[..];
    assert parts[..1][..0] == [];
    assert Flatten(parts[..1]) == parts[0];
    assert parts[..|parts| - 1] == parts[..1];
    assert Flatten(parts) == Flatten(parts[..1]) + parts[1];
  }

  /** Writing a series to Arrow and reading it back with its dtype gives an
      array with the same rows. */
  method ArrowRoundTrip(arr: DistributionArray) returns (back: Result<DistributionArray>)
    requires arr.Valid()
    ensures back.Ok? && back.value.dtype == arr.dtype && back.value.data[..] == arr.data[..]
  {
    var sa := arr.ToArrow();
    back := DistributionArrays.FromArrow(arr.dtype, Single(sa));
  }
}

/** The distribution dtype family: the three registered dtypes, their
    scalars, the scalar <-> record conversions (`_get_scalar`,
    `_set_scalar`), `to_dict`, the missing value, and name lookup over the
    registry. */
module DistributionBase {
  import opened Outcomes
  import opened Values
  import opened Dicts
  import opened Columnar
  import B = BernoulliVariant
  import L = LogNormalVariant
  import C = CategoricalVariant

  /** A distribution dtype.  Bernoulli and log-normal have one instance each;
      a categorical dtype carries its field names. */
  datatype DistributionDtype = BernoulliDtype | LogNormalDtype | CategoricalDtypeOf(categorical: C.CategoricalDtype)

  /** A distribution scalar. */
  datatype Distribution =
    | BernoulliValue(bernoulli: B.Bernoulli)
    | LogNormalValue(lognormal: L.LogNormal)
    | CategoricalValue(cat: C.Categorical)

  /** `names`: the field names of the dtype's record layout, in order. */
  function Names(d: DistributionDtype): (r: seq<string>)
    ensures ValidDtype(d) ==> Distinct(r)
  {
    match d
    case BernoulliDtype => B.Fields
    case LogNormalDtype => L.Fields
    case CategoricalDtypeOf(c) => c.names
  }

  function Width(d: DistributionDtype): nat { |Names(d)| }

  /** A dtype its constructor can produce. */
  predicate ValidDtype(d: DistributionDtype)
  {
    d.CategoricalDtypeOf? ==> C.ValidNames(d.categorical.names)
  }

  /** The dtype's `name`: every family's name is `dist[` ... `]`. */
  function DtypeName(d: DistributionDtype): (r: string)
    ensures |r| > 6 && r[..5] == "dist[" && r[|r| - 1] == ']'
  {
    match d
    case BernoulliDtype => B.Name
    case LogNormalDtype => L.Name
    case CategoricalDtypeOf(c) => C.Name(c)
  }

  /** `scalar.dtype`: the singleton bound to the class for the fixed
      families, the scalar's own dtype for a categorical. */
  function DtypeOf(x: Distribution): DistributionDtype
  {
    match x
    case BernoulliValue(_) => BernoulliDtype
    case LogNormalValue(_) => LogNormalDtype
    case CategoricalValue(c) => CategoricalDtypeOf(c.dtype)
  }

  /** `to_tuple`: a scalar of a fixed family always has one value per
      field of its dtype; a categorical scalar carries whatever it was
      given. */
  function ToTuple(x: Distribution): (r: seq<Value>)
    ensures !x.CategoricalValue? ==> |r| == Width(DtypeOf(x))
  {
    match x
    case BernoulliValue(b) => B.ToTuple(b)
    case LogNormalValue(l) => L.ToTuple(l)
    case CategoricalValue(c) => C.ToTuple(c)
  }

  /** `to_dict`: the dtype's field names zipped with the tuple. */
  function ToDict(x: Distribution): (d: map<string, Value>)
    ensures d.Keys <= set n | n in Names(DtypeOf(x))
    ensures |ToTuple(x)| >= Width(DtypeOf(x)) ==> d.Keys == set n | n in Names(DtypeOf(x))
  {
    var names := Names(DtypeOf(x));
    assert names[..|names|] == names;
    ZipDict(names, ToTuple(x))
  }

  /** For a valid scalar, `to_dict` maps every field name to that field's
      value and has no other key. */
  lemma ToDictAt(x: Distribution, k: nat)
    requires ValidDtype(DtypeOf(x)) && |ToTuple(x)| == Width(DtypeOf(x))
    requires k < Width(DtypeOf(x))
    ensures ToDict(x).Keys == set n | n in Names(DtypeOf(x))
    ensures ToDict(x)[Names(DtypeOf(x))[k]] == ToTuple(x)[k]
  {
    var names := Names(DtypeOf(x));
    assert names[..|names|] == names;
    assert Distinct(names) by {
      if !x.CategoricalValue? {
        assert names == B.Fields || names == L.Fields;
      }
    }
    ZipDictAt(names, ToTuple(x), k);
  }

  /** `_get_scalar` on one record: the fixed families build the scalar from
      keyword arguments named after the fields; the categorical dtype wraps
      the record's values with itself.  Either way the result is a scalar
      of this dtype whose tuple is the record. */
  function GetScalar(d: DistributionDtype, rec: Record): (r: Distribution)
    requires |rec| == Width(d)
    ensures ToTuple(r) == rec
    ensures DtypeOf(r) == d
  {
    match d
    case BernoulliDtype =>
      B.LayoutMatchesTuple(rec, B.Bernoulli(rec[0]));
      BernoulliValue(B.FromKwargs(ZipDict(B.Fields, rec)).value)
    case LogNormalDtype =>
      L.LayoutMatchesTuple(rec, L.LogNormal(rec[0], rec[1]));
      LogNormalValue(L.FromKwargs(ZipDict(L.Fields, rec)).value)
    case CategoricalDtypeOf(c) =>
      CategoricalValue(C.Categorical(rec, c))
  }

  /** `na_value`: the missing scalar is `None`. */
  const NaValue: Option<Distribution> := None

  /** The record `_set_scalar` stores for a value (`None` or a scalar).
      `None` sets every field to NaN.  A scalar stores its tuple, which must
      have one value per field (`ValueError` otherwise); only the categorical
      dtype first checks that the scalar has this very dtype (`TypeError`). */
  function RecordFor(d: DistributionDtype, v: Option<Distribution>): (r: Result<Record>)
    ensures v.None? ==> r == Ok(Uniform(Width(d), NaN))
    ensures r == Err(TypeError) <==> d.CategoricalDtypeOf? && v.Some? && DtypeOf(v.value) != d
    ensures r == Err(ValueError) <==>
      v.Some? && !(d.CategoricalDtypeOf? && DtypeOf(v.value) != d) && |ToTuple(v.value)| != Width(d)
    ensures v.Some? && r.Ok? ==> r.value == ToTuple(v.value)
  {
    match v
    case None => Ok(Uniform(Width(d), NaN))
    case Some(x) =>
      if d.CategoricalDtypeOf? && DtypeOf(x) != d then Err(TypeError)
      else if |ToTuple(x)| != Width(d) then Err(ValueError)
      else Ok(ToTuple(x))
  }

  /** `_set_scalar(array, index, value)`.  The categorical dtype check runs
      first, then numpy's index check (`IndexError`, negative indices from
      the end), then the conversion of the tuple to a record. */
  method SetScalar(d: DistributionDtype, a: array<Record>, index: int, v: Option<Distribution>) returns (o: Outcome)
    modifies a
    ensures o == Raised(TypeError) <==> RecordFor(d, v) == Err(TypeError)
    ensures o == Raised(IndexError) <==>
      RecordFor(d, v) != Err(TypeError) && NormIndex(a.Length, index).None?
    ensures o.Done? <==> RecordFor(d, v).Ok? && NormIndex(a.Length, index).Some?
    ensures o.Raised? && o.error != IndexError ==> RecordFor(d, v) == Err(o.error)
    ensures o.Raised? ==> a[..] == old(a[..])
    ensures o.Done? ==> a[..] == old(a[..])[NormIndex(a.Length, index).value := RecordFor(d, v).value]
  {
    var rec := RecordFor(d, v);
    if rec == Err(TypeError) {
      return Raised(TypeError);
    }
    var i := NormIndex(a.Length, index);
    if i.None? {
      return Raised(IndexError);
    }
    if rec.Err? {
      return Raised(rec.error);
    }
    a[i.value] := rec.value;
    o := Done;
  }

  /** Writing a scalar into a record of its own dtype and reading it back
      gives the same scalar. */
  lemma ScalarRoundTrip(d: DistributionDtype, x: Distribution)
    requires DtypeOf(x) == d && |ToTuple(x)| == Width(d)
    ensures RecordFor(d, Some(x)) == Ok(ToTuple(x))
    ensures GetScalar(d, ToTuple(x)) == x
  {
    match x
    case BernoulliValue(b) =>
      B.LayoutMatchesTuple(ToTuple(x), b);
    case LogNormalValue(l) =>
      L.LayoutMatchesTuple(ToTuple(x), l);
    case CategoricalValue(c) =>
  }

  /** `_get_scalar` of a categorical dtype wraps the record with the dtype
      itself, and `to_tuple` hands back the record unchanged. */
  lemma CategoricalScalar(c: C.CategoricalDtype, rec: Record)
    requires |rec| == |c.names|
    ensures GetScalar(CategoricalDtypeOf(c), rec) == CategoricalValue(C.Categorical(rec, c))
    ensures C.ToTuple(GetScalar(CategoricalDtypeOf(c), rec).cat) == rec
  {
  }

  /** Reading a record and writing the scalar back stores the same record. */
  lemma RecordRoundTrip(d: DistributionDtype, rec: Record)
    requires |rec| == Width(d)
    ensures RecordFor(d, Some(GetScalar(d, rec))) == Ok(rec)
  {
  }

  /** Storing `None` makes the record missing, for any dtype with a field. */
  lemma NoneIsMissing(d: DistributionDtype)
    ensures RecordFor(d, NaValue).Ok?
    ensures AnyNaN(RecordFor(d, NaValue).value) <==> Width(d) > 0
  {
    if Width(d) > 0 {
      assert IsNaN(RecordFor(d, NaValue).value[0]);
    }
  }

  /** A categorical dtype refuses a scalar of another categorical dtype even
      when the widths agree; the fixed families check widths only, so a
      one-field categorical scalar can be stored in a Bernoulli record. */
  lemma DtypeCheckOnlyForCategorical(c: C.CategoricalDtype, theta: seq<Value>, other: C.CategoricalDtype)
    requires other != c
    requires |theta| == 1
    ensures RecordFor(CategoricalDtypeOf(c), Some(CategoricalValue(C.Categorical(theta, other)))) == Err(TypeError)
    ensures RecordFor(BernoulliDtype, Some(CategoricalValue(C.Categorical(theta, other)))) == Ok(theta)
  {
  }

  // ---------------------------------------------------------------------
  // Names and lookup

  /** Default `construct_from_string` of a fixed family: exactly its name. */
  function ConstructFixed(name: string, s: string): (r: Result<DistributionDtype>)
    ensures r.Ok? <==> s == name && (name == B.Name || name == L.Name)
    ensures r.Ok? ==> !r.value.CategoricalDtypeOf? && DtypeName(r.value) == s
    ensures r.Err? ==> r.error == TypeError
  {
    if s == name && name == B.Name then Ok(BernoulliDtype)
    else if s == name && name == L.Name then Ok(LogNormalDtype)
    else Err(TypeError)
  }

  /** Finding the dtype for a string over the registry, in registration order
      (Bernoulli, categorical, log-normal): a `TypeError` passes on to the
      next dtype, any other error propagates, and no match at all gives
      None. */
  function FindDtype(s: string): (r: Result<Option<DistributionDtype>>)
    ensures r.Ok? && r.value.Some? ==> ValidDtype(r.value.value)
    ensures r.Ok? && r.value.Some? && !r.value.value.CategoricalDtypeOf? ==> DtypeName(r.value.value) == s
    ensures r.Err? ==> r.error == ValueError
  {
    match ConstructFixed(B.Name, s)
    case Ok(d) => Ok(Some(d))
    case Err(_) =>
      match C.ConstructFromString(s)
      case Ok(c) =>
        C.ParsedIsCanonical(s, c);
        Ok(Some(CategoricalDtypeOf(c)))
      case Err(e) =>
        if e != TypeError then Err(e)
        else
          match ConstructFixed(L.Name, s)
          case Ok(d) => Ok(Some(d))
          case Err(_) => Ok(None)
  }

  lemma ShortNamesDoNotMatch()
    ensures C.ConstructFromString(B.Name) == Err(TypeError)
    ensures C.ConstructFromString(L.Name) == Err(TypeError)
  {
    assert |B.Name| < |C.Prefix| && |L.Name| < |C.Prefix|;
  }

  lemma CategoricalNameShape(c: C.CategoricalDtype)
    ensures C.Name(c) != B.Name && C.Name(c) != L.Name
  {
    assert C.Name(c)[5] == C.Prefix[5] == 'c';
    assert B.Name[5] == 'b' && L.Name[5] == 'l';
  }

  /** Every dtype's name leads back to that dtype. */
  lemma FindByName(d: DistributionDtype)
    requires ValidDtype(d)
    ensures FindDtype(DtypeName(d)) == Ok(Some(d))
  {
    ShortNamesDoNotMatch();
    match d
    case BernoulliDtype =>
    case LogNormalDtype =>
    case CategoricalDtypeOf(c) =>
      CategoricalNameShape(c);
      C.NameRoundTrip(c);
  }

  /** Dtype names identify dtypes. */
  lemma NameInjective(a: DistributionDtype, b: DistributionDtype)
    requires ValidDtype(a) && ValidDtype(b)
    ensures DtypeName(a) == DtypeName(b) <==> a == b
  {
    if DtypeName(a) == DtypeName(b) {
      FindByName(a);
      FindByName(b);
    }
  }
}

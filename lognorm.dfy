/** The log-normal distribution: fields `mu` and `sigma`, the location and
    scale of the underlying normal. */
module LogNormalVariant {
  import opened Outcomes
  import opened Values
  import opened Dicts

  /** The scalar; `sigma > 0` is not checked. */
  datatype LogNormal = LogNormal(mu: Value, sigma: Value)

  /** The dtype's canonical name. */
  const Name: string := "dist[lognorm]"

  /** The record layout: `mu`, then `sigma`. */
  const Fields: seq<string> := ["mu", "sigma"]

  /** `to_tuple`: `(mu, sigma)`. */
  function ToTuple(d: LogNormal): (r: seq<Value>)
    ensures |r| == |Fields|
  {
    [d.mu, d.sigma]
  }

  /** The dataclass constructor called with keyword arguments: exactly the
      keywords `mu` and `sigma` are accepted, anything else raises `TypeError`. */
  function FromKwargs(kw: map<string, Value>): (r: Result<LogNormal>)
    ensures r.Ok? <==> kw.Keys == set f | f in Fields
    ensures r.Err? ==> r.error == TypeError
    ensures r.Ok? ==> forall k :: 0 <= k < |Fields| ==> ToTuple(r.value)[k] == kw[Fields[k]]
  {
    if kw.Keys == {"mu", "sigma"} then Ok(LogNormal(kw["mu"], kw["sigma"])) else Err(TypeError)
  }

  /** The layout and `to_tuple` list the fields in the same order: pairing
      the field names with any two-field record and calling the constructor
      gives back a scalar whose tuple is that record, and every scalar is
      rebuilt from its own tuple. */
  lemma LayoutMatchesTuple(rec: Record, d: LogNormal)
    requires |rec| == |Fields|
    ensures FromKwargs(ZipDict(Fields, rec)).Ok?
    ensures ToTuple(FromKwargs(ZipDict(Fields, rec)).value) == rec
    ensures FromKwargs(ZipDict(Fields, ToTuple(d))) == Ok(d)
  {
    KwargsOfRecord(rec);
    KwargsOfRecord(ToTuple(d));
  }

  /** The keyword arguments built from a record name both fields once. */
  lemma KwargsOfRecord(rec: Record)
    requires |rec| == |Fields|
    ensures FromKwargs(ZipDict(Fields, rec)) == Ok(LogNormal(rec[0], rec[1]))
  {
    assert Distinct(Fields);
    ZipDictAt(Fields, rec, 0);
    ZipDictAt(Fields, rec, 1);
    assert Fields[..2] == Fields;
    assert ZipDict(Fields, rec).Keys == {"mu", "sigma"};
  }
}

/** The Bernoulli distribution: a single field `p`. */
module BernoulliVariant {
  import opened Outcomes
  import opened Values
  import opened Dicts

  /** The scalar; `p` is a success probability by convention, not checked. */
  datatype Bernoulli = Bernoulli(p: Value)

  /** The dtype's canonical name. */
  const Name: string := "dist[bernoulli]"

  /** The record layout: one float field. */
  const Fields: seq<string> := ["p"]

  /** `to_tuple`: the 1-tuple `(p,)`. */
  function ToTuple(b: Bernoulli): (r: seq<Value>)
    ensures |r| == |Fields|
  {
    [b.p]
  }

  /** The dataclass constructor called with keyword arguments: exactly the
      keyword `p` is accepted, anything else raises `TypeError`. */
  function FromKwargs(kw: map<string, Value>): (r: Result<Bernoulli>)
    ensures r.Ok? <==> kw.Keys == set f | f in Fields
    ensures r.Err? ==> r.error == TypeError
    ensures r.Ok? ==> forall k :: 0 <= k < |Fields| ==> ToTuple(r.value)[k] == kw[Fields[k]]
  {
    if kw.Keys == {"p"} then Ok(Bernoulli(kw["p"])) else Err(TypeError)
  }

  /** The layout and `to_tuple` agree: pairing the field names with any
      one-field record and calling the constructor gives back a scalar whose
      tuple is that record, and every scalar is rebuilt from its own tuple. */
  lemma LayoutMatchesTuple(rec: Record, b: Bernoulli)
    requires |rec| == |Fields|
    ensures FromKwargs(ZipDict(Fields, rec)).Ok?
    ensures ToTuple(FromKwargs(ZipDict(Fields, rec)).value) == rec
    ensures FromKwargs(ZipDict(Fields, ToTuple(b))) == Ok(b)
  {
    ZipDictAt(Fields, rec, 0);
    ZipDictAt(Fields, ToTuple(b), 0);
    assert Fields[..1] == Fields;
    assert ZipDict(Fields, rec).Keys == {"p"};
    assert ZipDict(Fields, ToTuple(b)).Keys == {"p"};
  }
}

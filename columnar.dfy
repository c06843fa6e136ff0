/** The columnar record buffer's row-level logic, shared by the structured
    array and the distribution array (whose source repeats it line for line):
    numpy integer and array indexing, assignment with broadcasting, the
    missing mask, record-array equality, concatenation, `take`, and field
    columns with the aliasing field view. */
module Columnar {
  import opened Outcomes
  import opened Values

  // ---------------------------------------------------------------------
  // Indexing

  /** numpy's integer index into `n` rows: a negative index counts from the
      end; anything outside `[-n, n)` raises `IndexError`. */
  function NormIndex(n: nat, i: int): (r: Option<nat>)
    ensures r.Some? <==> -(n as int) <= i < n
    ensures r.Some? ==> r.value < n && (r.value == i || r.value == i + n)
  {
    if 0 <= i < n then Some(i)
    else if -(n as int) <= i < 0 then Some((i + n) as nat)
    else None
  }

  /** A non-integer indexer once the host has checked it: an integer array or a boolean mask. */
  datatype Indexer = Positions(positions: seq<int>) | Mask(mask: seq<bool>)

  /** The positions a boolean mask selects, in increasing order. */
  function Selected(mask: seq<bool>): (ps: seq<nat>)
    ensures forall j :: 0 <= j < |ps| ==> ps[j] < |mask| && mask[ps[j]]
    ensures forall i :: 0 <= i < |mask| && mask[i] ==> i in ps
    ensures forall j, k :: 0 <= j < k < |ps| ==> ps[j] < ps[k]
  {
    if |mask| == 0 then []
    else Selected(mask[..|mask| - 1]) + (if mask[|mask| - 1] then [|mask| - 1] else [])
  }

  /** The rows an indexer selects, in selection order: a mask must have one
      entry per row, and every integer must be a valid numpy index. */
  function Resolve(n: nat, ix: Indexer): (r: Result<seq<nat>>)
    ensures r.Ok? ==> forall j :: 0 <= j < |r.value| ==> r.value[j] < n
    ensures ix.Mask? ==> (r.Ok? <==> |ix.mask| == n)
    ensures ix.Mask? && r.Ok? ==> forall i :: 0 <= i < n ==> (i in r.value <==> ix.mask[i])
    ensures ix.Mask? && r.Ok? ==> forall j, k :: 0 <= j < k < |r.value| ==> r.value[j] < r.value[k]
    ensures ix.Positions? ==>
      (r.Ok? <==> forall j :: 0 <= j < |ix.positions| ==> -(n as int) <= ix.positions[j] < n)
    ensures ix.Positions? && r.Ok? ==> |r.value| == |ix.positions|
    ensures ix.Positions? && r.Ok? ==>
      forall j :: 0 <= j < |r.value| ==> r.value[j] == ix.positions[j] || r.value[j] == ix.positions[j] + n
    ensures r.Err? ==> r.error == IndexError
  {
    match ix
    case Mask(m) =>
      if |m| == n then Ok(Selected(m)) else Err(IndexError)
    case Positions(ps) =>
      if forall j :: 0 <= j < |ps| ==> NormIndex(n, ps[j]).Some? then
        Ok(seq(|ps|, j requires 0 <= j < |ps| => NormIndex(n, ps[j]).value))
      else Err(IndexError)
  }

  /** The elements at the given positions, in that order. */
  function Gather<T>(xs: seq<T>, ps: seq<nat>): seq<T>
    requires forall j :: 0 <= j < |ps| ==> ps[j] < |xs|
  {
    seq(|ps|, j requires 0 <= j < |ps| => xs[ps[j]])
  }

  /** Boolean indexing as a filter: the elements whose mask entry is true,
      in their order. */
  function Compress<T>(xs: seq<T>, mask: seq<bool>): seq<T>
    requires |mask| == |xs|
  {
    if |xs| == 0 then []
    else Compress(xs[..|xs| - 1], mask[..|mask| - 1]) + (if mask[|mask| - 1] then [xs[|xs| - 1]] else [])
  }

  lemma GatherAppend<T>(xs: seq<T>, front: seq<T>, ps: seq<nat>, tail: seq<nat>)
    requires |front| <= |xs| && front == xs[..|front|]
    requires forall j :: 0 <= j < |ps| ==> ps[j] < |front|
    requires forall j :: 0 <= j < |tail| ==> tail[j] < |xs|
    ensures Gather(xs, ps + tail) == Gather(front, ps) + Gather(xs, tail)
  {
    var l, r := Gather(xs, ps + tail), Gather(front, ps) + Gather(xs, tail);
    forall j | 0 <= j < |l| ensures l[j] == r[j] {
      if j < |ps| {
        assert (ps + tail)[j] == ps[j];
      } else {
        assert (ps + tail)[j] == tail[j - |ps|];
      }
    }
  }

  /** Gathering the positions a mask selects is filtering by the mask. */
  lemma {:induction false} GatherMask<T>(xs: seq<T>, mask: seq<bool>)
    requires |mask| == |xs|
    ensures Gather(xs, Selected(mask)) == Compress(xs, mask)
  {
    if |xs| > 0 {
      var n := |xs| - 1;
      var front, fm := xs[..n], mask[..n];
      GatherMask(front, fm);
      var ps := Selected(fm);
      var tail: seq<nat> := if mask[n] then [n] else [];
      assert Selected(mask) == ps + tail;
      GatherAppend(xs, front, ps, tail);
    }
  }

  // ---------------------------------------------------------------------
  // Assignment

  /** The right-hand side of `a[indexer] = value`: one item for every
      selected position, or a sequence of them. */
  datatype Bulk<T> = Broadcast(item: T) | Items(items: seq<T>)

  /** numpy broadcasting of an assigned value over `count` positions: a
      single item, or a sequence of length one, fills them all; any other
      sequence must have exactly `count` items, else `ValueError`. */
  function Spread<T>(count: nat, v: Bulk<T>): (r: Result<seq<T>>)
    ensures r.Ok? <==> (v.Broadcast? || |v.items| == count || |v.items| == 1)
    ensures r.Err? ==> r.error == ValueError
    ensures r.Ok? ==> |r.value| == count
    ensures r.Ok? && v.Broadcast? ==> forall j :: 0 <= j < count ==> r.value[j] == v.item
    ensures r.Ok? && v.Items? && |v.items| == count ==> r.value == v.items
    ensures r.Ok? && v.Items? && |v.items| == 1 ==> forall j :: 0 <= j < count ==> r.value[j] == v.items[0]
  {
    match v
    case Broadcast(x) => Ok(seq(count, _ => x))
    case Items(xs) =>
      if |xs| == count then Ok(xs)
      else if |xs| == 1 then Ok(seq(count, _ => xs[0]))
      else Err(ValueError)
  }

  /** `xs[ps] = vs` as numpy performs it: the writes happen in order, so the
      last write to a repeated position wins. */
  function Scatter<T>(xs: seq<T>, ps: seq<nat>, vs: seq<T>): (r: seq<T>)
    requires |ps| == |vs|
    requires forall j :: 0 <= j < |ps| ==> ps[j] < |xs|
    ensures |r| == |xs|
  {
    if |ps| == 0 then xs
    else Scatter(xs, ps[..|ps| - 1], vs[..|vs| - 1])[ps[|ps| - 1] := vs[|vs| - 1]]
  }

  /** A scatter leaves every position no write aims at as it was, and the
      final write lands where it aims. */
  lemma {:induction false} ScatterFrame<T>(xs: seq<T>, ps: seq<nat>, vs: seq<T>)
    requires |ps| == |vs|
    requires forall j :: 0 <= j < |ps| ==> ps[j] < |xs|
    ensures forall i :: 0 <= i < |xs| && (forall j :: 0 <= j < |ps| ==> ps[j] != i) ==>
      Scatter(xs, ps, vs)[i] == xs[i]
    ensures |ps| > 0 ==> Scatter(xs, ps, vs)[ps[|ps| - 1]] == vs[|vs| - 1]
  {
    if |ps| > 0 {
      var n := |ps| - 1;
      ScatterFrame(xs, ps[..n], vs[..n]);
      forall i | 0 <= i < |xs| && (forall j :: 0 <= j < |ps| ==> ps[j] != i)
        ensures Scatter(xs, ps, vs)[i] == xs[i]
      {
        assert forall j :: 0 <= j < n ==> ps[..n][j] == ps[j];
      }
    }
  }

  /** The last write aimed at position `i`, if any. */
  function LastWrite(ps: seq<nat>, i: nat): (r: Option<nat>)
    ensures r.Some? ==> r.value < |ps| && ps[r.value] == i
    ensures r.Some? ==> forall k :: r.value < k < |ps| ==> ps[k] != i
    ensures r.None? ==> forall k :: 0 <= k < |ps| ==> ps[k] != i
  {
    if |ps| == 0 then None
    else if ps[|ps| - 1] == i then Some(|ps| - 1)
    else LastWrite(ps[..|ps| - 1], i)
  }

  /** After a scatter, a position holds the value of the last write aimed at
      it, or its old value when no write was. */
  lemma {:induction false} ScatterAt<T>(xs: seq<T>, ps: seq<nat>, vs: seq<T>, i: nat)
    requires |ps| == |vs|
    requires forall j :: 0 <= j < |ps| ==> ps[j] < |xs|
    requires i < |xs|
    ensures Scatter(xs, ps, vs)[i] == match LastWrite(ps, i) case None => xs[i] case Some(j) => vs[j]
  {
    if |ps| > 0 && ps[|ps| - 1] != i {
      ScatterAt(xs, ps[..|ps| - 1], vs[..|vs| - 1], i);
      match LastWrite(ps[..|ps| - 1], i)
      case None =>
      case Some(j) => assert vs[..|vs| - 1][j] == vs[j];
    }
  }

  /** `a[ps] = vs` on an array, write by write. */
  method Store<T>(a: array<T>, ps: seq<nat>, vs: seq<T>)
    requires |ps| == |vs|
    requires forall j :: 0 <= j < |ps| ==> ps[j] < a.Length
    modifies a
    ensures a[..] == Scatter(old(a[..]), ps, vs)
  {
    for j := 0 to |ps|
      invariant a[..] == Scatter(old(a[..]), ps[..j], vs[..j])
    {
      assert ps[..j + 1][..j] == ps[..j];
      assert vs[..j + 1][..j] == vs[..j];
      a[ps[j]] := vs[j];
    }
    assert ps[..|ps|] == ps;
    assert vs[..|vs|] == vs;
  }

  /** Every record of a bulk value has `width` fields. */
  predicate FitsWidth(value: Bulk<Record>, width: nat)
  {
    match value
    case Broadcast(rec) => |rec| == width
    case Items(recs) => forall j :: 0 <= j < |recs| ==> |recs[j]| == width
  }

  /** `a[indexer] = value` with a non-integer indexer: the indexer is
      resolved first (`IndexError`), then the value must consist of records
      of the layout and broadcast over the selected rows (`ValueError`),
      and the rows are written in selection order. */
  method AssignRows(a: array<Record>, width: nat, ix: Indexer, value: Bulk<Record>) returns (o: Outcome)
    modifies a
    ensures o.Done? <==>
      Resolve(a.Length, ix).Ok? && FitsWidth(value, width) &&
      Spread(|Resolve(a.Length, ix).value|, value).Ok?
    ensures Resolve(a.Length, ix).Err? ==> o == Raised(IndexError)
    ensures Resolve(a.Length, ix).Ok? && o.Raised? ==> o.error == ValueError
    ensures o.Raised? ==> a[..] == old(a[..])
    ensures o.Done? ==>
      a[..] == Scatter(old(a[..]), Resolve(a.Length, ix).value,
                       Spread(|Resolve(a.Length, ix).value|, value).value)
    ensures HasWidth(old(a[..]), width) ==> HasWidth(a[..], width)
  {
    var ps := Resolve(a.Length, ix);
    if ps.Err? {
      return Raised(ps.error);
    }
    if !FitsWidth(value, width) {
      return Raised(ValueError);
    }
    var vs := Spread(|ps.value|, value);
    if vs.Err? {
      return Raised(vs.error);
    }
    ghost var before := a[..];
    Store(a, ps.value, vs.value);
    o := Done;
    if HasWidth(before, width) {
      forall i | 0 <= i < a.Length ensures |a[i]| == width {
        ScatterAt(before, ps.value, vs.value, i);
      }
    }
  }

  /** Converting values to records one after another, as a loop of
      `_set_scalar` calls does: the first value that cannot be converted
      decides the error. */
  function Marshal<V>(convert: V -> Result<Record>, xs: seq<V>): (r: Result<seq<Record>>)
    ensures r.Ok? <==> forall i :: 0 <= i < |xs| ==> convert(xs[i]).Ok?
    ensures r.Ok? ==> |r.value| == |xs|
    ensures r.Ok? ==> forall i :: 0 <= i < |xs| ==> r.value[i] == convert(xs[i]).value
    ensures r.Err? ==> exists i :: 0 <= i < |xs| && convert(xs[i]) == Err(r.error) &&
                                   (forall j :: 0 <= j < i ==> convert(xs[j]).Ok?)
  {
    if |xs| == 0 then Ok([])
    else
      match Marshal(convert, xs[..|xs| - 1])
      case Err(e) => Err(e)
      case Ok(rs) =>
        match convert(xs[|xs| - 1])
        case Err(e) => Err(e)
        case Ok(rec) => Ok(rs + [rec])
  }

  /** The error of a conversion that fails at `i`, after `i` successes, is
      the error of the whole sequence. */
  lemma MarshalFirstError<V>(convert: V -> Result<Record>, xs: seq<V>, i: nat)
    requires i < |xs| && convert(xs[i]).Err?
    requires forall j :: 0 <= j < i ==> convert(xs[j]).Ok?
    ensures Marshal(convert, xs) == Err(convert(xs[i]).error)
  {
    var r := Marshal(convert, xs);
    var i' :| 0 <= i' < |xs| && convert(xs[i']) == Err(r.error) &&
              (forall j :: 0 <= j < i' ==> convert(xs[j]).Ok?);
    assert i' == i;
  }

  /** Fresh storage holding the given rows (a new numpy buffer). */
  method Allocate(rows: seq<Record>) returns (a: array<Record>)
    ensures fresh(a)
    ensures a[..] == rows
  {
    a := new Record[|rows|](i requires 0 <= i < |rows| => rows[i]);
  }

  // ---------------------------------------------------------------------
  // Columns

  predicate HasField(rows: seq<Record>, k: nat)
  {
    forall i :: 0 <= i < |rows| ==> k < |rows[i]|
  }

  predicate HasWidth(rows: seq<Record>, width: nat)
  {
    forall i :: 0 <= i < |rows| ==> |rows[i]| == width
  }

  /** `a[name]`: one field across all rows. */
  function Column(rows: seq<Record>, k: nat): seq<Value>
    requires HasField(rows, k)
  {
    seq(|rows|, i requires 0 <= i < |rows| => rows[i][k])
  }

  /** The rows with field `k` replaced by `col`, row by row. */
  function WithColumn(rows: seq<Record>, k: nat, col: seq<Value>): (r: seq<Record>)
    requires HasField(rows, k) && |col| == |rows|
    ensures |r| == |rows|
    ensures forall i :: 0 <= i < |rows| ==> |r[i]| == |rows[i]|
  {
    seq(|rows|, i requires 0 <= i < |rows| => rows[i][k := col[i]])
  }

  /** Writing one field changes that field to the new column and leaves
      every other field of every row as it was. */
  lemma WithColumnFrame(rows: seq<Record>, k: nat, col: seq<Value>, k': nat)
    requires HasField(rows, k) && HasField(rows, k') && |col| == |rows|
    ensures HasField(WithColumn(rows, k, col), k')
    ensures Column(WithColumn(rows, k, col), k') == if k' == k then col else Column(rows, k')
  {
  }

  /** A field of the rows, seen through a numpy field view: the view shares
      the buffer's storage, so a write through it is a write to the buffer. */
  class FieldView {
    const storage: array<Record>
    const field: nat

    constructor (storage: array<Record>, field: nat)
      ensures this.storage == storage && this.field == field
    {
      this.storage := storage;
      this.field := field;
    }

    ghost predicate Valid()
      reads storage
    {
      HasField(storage[..], field)
    }

    /** What the view currently shows. */
    function Values(): seq<Value>
      reads storage
      requires Valid()
    {
      Column(storage[..], field)
    }

    /** `view[:] = value`, broadcasting a scalar or a one-item sequence. */
    method Assign(value: Bulk<Value>) returns (o: Outcome)
      requires Valid()
      modifies storage
      ensures Valid()
      ensures o.Raised? <==> Spread(storage.Length, value).Err?
      ensures o.Raised? ==> o.error == ValueError && storage[..] == old(storage[..])
      ensures o.Done? ==>
        storage[..] == WithColumn(old(storage[..]), field, Spread(storage.Length, value).value)
    {
      var spread := Spread(storage.Length, value);
      if spread.Err? {
        return Raised(spread.error);
      }
      var col := spread.value;
      ghost var before := storage[..];
      for i := 0 to storage.Length
        invariant forall r :: 0 <= r < i ==> storage[r] == before[r][field := col[r]]
        invariant forall r :: i <= r < storage.Length ==> storage[r] == before[r]
      {
        storage[i] := storage[i][field := col[i]];
      }
      assert storage[..] == WithColumn(before, field, col);
      o := Done;
    }

    /** `view[positions] = values`, in order. */
    method Put(ps: seq<nat>, vs: seq<Value>)
      requires Valid()
      requires |ps| == |vs|
      requires forall j :: 0 <= j < |ps| ==> ps[j] < storage.Length
      modifies storage
      ensures Valid()
      ensures storage[..] ==
        WithColumn(old(storage[..]), field, Scatter(Column(old(storage[..]), field), ps, vs))
    {
      ghost var before := storage[..];
      ghost var col := Column(before, field);
      assert ps[..0] == [] && vs[..0] == [];
      for j := 0 to |ps|
        invariant forall r :: 0 <= r < storage.Length ==>
          storage[r] == before[r][field := Scatter(col, ps[..j], vs[..j])[r]]
      {
        assert ps[..j + 1][..j] == ps[..j];
        assert vs[..j + 1][..j] == vs[..j];
        storage[ps[j]] := storage[ps[j]][field := vs[j]];
      }
      assert ps[..|ps|] == ps;
      assert vs[..|vs|] == vs;
      assert storage[..] == WithColumn(before, field, Scatter(col, ps, vs));
    }
  }

  // ---------------------------------------------------------------------
  // Missing mask

  /** `np.isnan(a[name])` for field `k`. */
  function NaNColumn(rows: seq<Record>, k: nat): seq<bool>
    requires HasField(rows, k)
  {
    seq(|rows|, i requires 0 <= i < |rows| => IsNaN(rows[i][k]))
  }

  /** Every two masks have lengths numpy broadcasts together: equal, or one
      of them a single entry. */
  predicate Broadcastable(masks: seq<seq<bool>>)
  {
    forall k, l :: 0 <= k < |masks| && 0 <= l < |masks| ==>
      |masks[k]| == |masks[l]| || |masks[k]| == 1 || |masks[l]| == 1
  }

  /** `a | b` on boolean arrays: elementwise or, a single entry broadcast
      against the other side; other lengths raise `ValueError`. */
  function OrMasks(a: seq<bool>, b: seq<bool>): (r: Result<seq<bool>>)
    ensures r.Ok? <==> |a| == |b| || |a| == 1 || |b| == 1
    ensures r.Err? ==> r.error == ValueError
    ensures r.Ok? ==> |r.value| == (if |a| == 1 then |b| else |a|)
    ensures r.Ok? ==> forall i :: 0 <= i < |r.value| ==>
      (r.value[i] <==> a[if |a| == 1 then 0 else i] || b[if |b| == 1 then 0 else i])
  {
    if |a| == |b| then Ok(seq(|a|, i requires 0 <= i < |a| => a[i] || b[i]))
    else if |a| == 1 then Ok(seq(|b|, i requires 0 <= i < |b| => a[0] || b[i]))
    else if |b| == 1 then Ok(seq(|a|, i requires 0 <= i < |a| => a[i] || b[0]))
    else Err(ValueError)
  }

  /** `reduce(operator.or_, masks)`: `|` left to right; an empty list has
      nothing to start from and raises `TypeError`, and lengths that do not
      broadcast raise `ValueError`. The result is as long as every mask that
      is not a single entry. */
  function OrReduce(masks: seq<seq<bool>>): (r: Result<seq<bool>>)
    ensures |masks| == 0 ==> r == Err(TypeError)
    ensures |masks| > 0 ==> (r.Ok? <==> Broadcastable(masks))
    ensures |masks| > 0 && r.Err? ==> r.error == ValueError
    ensures r.Ok? ==> forall k :: 0 <= k < |masks| ==> |masks[k]| == |r.value| || |masks[k]| == 1
    ensures r.Ok? ==> exists k :: 0 <= k < |masks| && |masks[k]| == |r.value|
  {
    if |masks| == 0 then Err(TypeError)
    else if |masks| == 1 then
      assert |masks[0]| == |masks[0]|;
      Ok(masks[0])
    else
      var front := masks[..|masks| - 1];
      match OrReduce(front)
      case Err(e) =>
        assert Broadcastable(masks) ==> Broadcastable(front) by {
          if Broadcastable(masks) {
            BroadcastablePrefix(masks);
          }
        }
        Err(e)
      case Ok(acc) =>
        BroadcastStep(masks, |acc|);
        OrMasks(acc, masks[|masks| - 1])
  }

  lemma BroadcastablePrefix(masks: seq<seq<bool>>)
    requires |masks| > 0 && Broadcastable(masks)
    ensures Broadcastable(masks[..|masks| - 1])
  {
    var front := masks[..|masks| - 1];
    forall k, l | 0 <= k < |front| && 0 <= l < |front|
      ensures |front[k]| == |front[l]| || |front[k]| == 1 || |front[l]| == 1
    {
      assert front[k] == masks[k] && front[l] == masks[l];
    }
  }

  /** Adding a last mask to masks that broadcast to length `len`: the whole
      list broadcasts exactly when the last mask's length broadcasts with
      `len`. */
  lemma BroadcastStep(masks: seq<seq<bool>>, len: nat)
    requires |masks| > 1
    requires Broadcastable(masks[..|masks| - 1])
    requires forall k :: 0 <= k < |masks| - 1 ==> |masks[k]| == len || |masks[k]| == 1
    requires exists k :: 0 <= k < |masks| - 1 && |masks[k]| == len
    ensures Broadcastable(masks) <==>
      (len == |masks[|masks| - 1]| || len == 1 || |masks[|masks| - 1]| == 1)
  {
    var n := |masks| - 1;
    var front := masks[..n];
    var w :| 0 <= w < n && |masks[w]| == len;
    if Broadcastable(masks) {
      assert |masks[w]| == |masks[n]| || |masks[w]| == 1 || |masks[n]| == 1;
    }
    if len == |masks[n]| || len == 1 || |masks[n]| == 1 {
      forall k, l | 0 <= k < |masks| && 0 <= l < |masks|
        ensures |masks[k]| == |masks[l]| || |masks[k]| == 1 || |masks[l]| == 1
      {
        if k < n && l < n {
          assert front[k] == masks[k] && front[l] == masks[l];
        }
      }
    }
  }

  lemma {:induction false} OrReduceAt(masks: seq<seq<bool>>, len: nat)
    requires |masks| > 0
    requires forall k :: 0 <= k < |masks| ==> |masks[k]| == len
    ensures OrReduce(masks).Ok? && |OrReduce(masks).value| == len
    ensures forall i :: 0 <= i < len ==>
      (OrReduce(masks).value[i] <==> exists k :: 0 <= k < |masks| && masks[k][i])
  {
    if |masks| > 1 {
      var front := masks[..|masks| - 1];
      OrReduceAt(front, len);
      forall i | 0 <= i < len
        ensures OrReduce(masks).value[i] <==> exists k :: 0 <= k < |masks| && masks[k][i]
      {
        if OrReduce(front).value[i] {
          var k :| 0 <= k < |front| && front[k][i];
          assert masks[k][i];
        }
      }
    }
  }

  /** `isna`: the or-reduction of the per-field NaN masks, so a row is
      missing exactly when some field of it is NaN; a layout without fields
      raises `TypeError`. */
  function MissingMask(rows: seq<Record>, width: nat): (r: Result<seq<bool>>)
    requires HasWidth(rows, width)
    ensures r.Ok? <==> width > 0
    ensures r.Err? ==> r.error == TypeError
    ensures r.Ok? ==> |r.value| == |rows|
    ensures r.Ok? ==> forall i :: 0 <= i < |rows| ==> (r.value[i] <==> AnyNaN(rows[i]))
  {
    var masks := seq(width, k requires 0 <= k < width => NaNColumn(rows, k));
    if width > 0 then
      OrReduceAt(masks, |rows|);
      assert forall i :: 0 <= i < |rows| ==>
        ((exists k :: 0 <= k < width && masks[k][i]) <==> AnyNaN(rows[i])) by {
        forall i | 0 <= i < |rows|
          ensures (exists k :: 0 <= k < width && masks[k][i]) <==> AnyNaN(rows[i])
        {
          assert forall k :: 0 <= k < width ==> (masks[k][i] <==> IsNaN(rows[i][k]));
        }
      }
      OrReduce(masks)
    else OrReduce(masks)
  }

  // ---------------------------------------------------------------------
  // Equality

  /** What `==` between two arrays gives back. */
  datatype Comparison = NotImplemented | Elementwise(mask: seq<bool>) | Failed(error: Error)

  /** numpy `==` on two record arrays of one layout: row against row when
      the lengths agree, a one-row side broadcast against the other, and
      `ValueError` for any other pair of lengths. */
  function CompareRows(a: seq<Record>, b: seq<Record>): (c: Comparison)
    ensures c.Elementwise? <==> (|a| == |b| || |a| == 1 || |b| == 1)
    ensures c.Failed? ==> c.error == ValueError
    ensures !c.NotImplemented?
    ensures |a| == |b| ==> |c.mask| == |a|
    ensures |a| == |b| ==> forall i :: 0 <= i < |a| ==> (c.mask[i] <==> RecordEq(a[i], b[i]))
    ensures |a| != |b| && |a| == 1 ==> |c.mask| == |b|
    ensures |a| != |b| && |a| == 1 ==> forall i :: 0 <= i < |b| ==> (c.mask[i] <==> RecordEq(a[0], b[i]))
    ensures |a| != |b| && |b| == 1 ==> |c.mask| == |a|
    ensures |a| != |b| && |b| == 1 ==> forall i :: 0 <= i < |a| ==> (c.mask[i] <==> RecordEq(a[i], b[0]))
  {
    if |a| == |b| then Elementwise(seq(|a|, i requires 0 <= i < |a| => RecordEq(a[i], b[i])))
    else if |a| == 1 then Elementwise(seq(|b|, i requires 0 <= i < |b| => RecordEq(a[0], b[i])))
    else if |b| == 1 then Elementwise(seq(|a|, i requires 0 <= i < |a| => RecordEq(a[i], b[0])))
    else Failed(ValueError)
  }

  /** Comparing rows with themselves marks exactly the rows without a NaN
      field: a missing row is never equal to itself. */
  lemma CompareSelf(rows: seq<Record>)
    ensures CompareRows(rows, rows).Elementwise?
    ensures forall i :: 0 <= i < |rows| ==> (CompareRows(rows, rows).mask[i] <==> !AnyNaN(rows[i]))
  {
    forall i | 0 <= i < |rows| ensures RecordEq(rows[i], rows[i]) <==> !AnyNaN(rows[i]) {
      RecordEqSelf(rows[i]);
    }
  }

  // ---------------------------------------------------------------------
  // Concatenation

  /** `np.concatenate`: the parts one after another. */
  function Flatten<T>(parts: seq<seq<T>>): seq<T>
  {
    if |parts| == 0 then [] else Flatten(parts[..|parts| - 1]) + parts[|parts| - 1]
  }

  function TotalLength<T>(parts: seq<seq<T>>): nat
  {
    if |parts| == 0 then 0 else TotalLength(parts[..|parts| - 1]) + |parts[|parts| - 1]|
  }

  /** The concatenation is as long as all parts together, and part `p` sits
      after the parts before it, in its own order. */
  lemma {:induction false} FlattenLayout<T>(parts: seq<seq<T>>, p: nat, i: nat)
    requires p < |parts| && i < |parts[p]|
    ensures |Flatten(parts)| == TotalLength(parts)
    ensures TotalLength(parts[..p]) + i < |Flatten(parts)|
    ensures Flatten(parts)[TotalLength(parts[..p]) + i] == parts[p][i]
    decreases |parts|
  {
    var front := parts[..|parts| - 1];
    FlattenLength(front);
    if p < |parts| - 1 {
      FlattenLayout(front, p, i);
      assert front[..p] == parts[..p];
    } else {
      assert parts[..p] == front;
    }
  }

  /** Appending one more part appends its elements. */
  lemma FlattenSnoc<T>(parts: seq<seq<T>>, c: nat)
    requires c < |parts|
    ensures Flatten(parts[..c + 1]) == Flatten(parts[..c]) + parts[c]
  {
    assert parts[..c + 1][..c] == parts[..c];
  }

  /** One step of concatenation: the rows of the first `c` parts, then
      part `c`, are the rows of the first `c + 1` parts, all of one width. */
  lemma ConcatStep(contents: seq<seq<Record>>, c: nat, rows: seq<Record>, width: nat)
    requires c < |contents| && rows == Flatten(contents[..c])
    requires HasWidth(rows, width) && HasWidth(contents[c], width)
    ensures rows + contents[c] == Flatten(contents[..c + 1])
    ensures HasWidth(rows + contents[c], width)
  {
    FlattenSnoc(contents, c);
    HasWidthAppend(rows, contents[c], width);
  }

  lemma HasWidthAppend(a: seq<Record>, b: seq<Record>, width: nat)
    requires HasWidth(a, width) && HasWidth(b, width)
    ensures HasWidth(a + b, width)
  {
  }

  lemma {:induction false} FlattenLength<T>(parts: seq<seq<T>>)
    ensures |Flatten(parts)| == TotalLength(parts)
    decreases |parts|
  {
    if |parts| > 0 {
      FlattenLength(parts[..|parts| - 1]);
    }
  }

  // ---------------------------------------------------------------------
  // take

  /** `take(rows, indices, allow_fill, fill)` as the host library performs it.
      Without fill, indices follow numpy (negatives from the end; outside
      `[-n, n)` raises `IndexError`).  With fill, -1 marks a row to fill,
      an index below -1 raises `ValueError` and one at or past the end
      raises `IndexError`, the former checked first. */
  function TakeRows(rows: seq<Record>, indices: seq<int>, allowFill: bool, fill: Record): (r: Result<seq<Record>>)
    ensures !allowFill ==>
      (r.Ok? <==> forall j :: 0 <= j < |indices| ==> -|rows| <= indices[j] < |rows|)
    ensures allowFill ==>
      (r == Err(ValueError) <==> exists j :: 0 <= j < |indices| && indices[j] < -1)
    ensures allowFill ==>
      (r == Err(IndexError) <==>
        (forall j :: 0 <= j < |indices| ==> indices[j] >= -1) &&
        (exists j :: 0 <= j < |indices| && indices[j] >= |rows|))
    ensures r.Err? ==> r.error == ValueError || r.error == IndexError
    ensures r.Ok? ==> |r.value| == |indices|
    ensures r.Ok? ==> forall j :: 0 <= j < |indices| && indices[j] >= 0 ==> r.value[j] == rows[indices[j]]
    ensures r.Ok? && allowFill ==> forall j :: 0 <= j < |indices| && indices[j] < 0 ==> r.value[j] == fill
    ensures r.Ok? && !allowFill ==>
      forall j :: 0 <= j < |indices| && indices[j] < 0 ==> r.value[j] == rows[indices[j] + |rows|]
  {
    var n := |rows|;
    if !allowFill then
      if forall j :: 0 <= j < |indices| ==> NormIndex(n, indices[j]).Some? then
        Ok(seq(|indices|, j requires 0 <= j < |indices| => rows[NormIndex(n, indices[j]).value]))
      else Err(IndexError)
    else if exists j :: 0 <= j < |indices| && indices[j] < -1 then Err(ValueError)
    else if exists j :: 0 <= j < |indices| && indices[j] >= n then Err(IndexError)
    else Ok(seq(|indices|, j requires 0 <= j < |indices| => if indices[j] == -1 then fill else rows[indices[j]]))
  }
}

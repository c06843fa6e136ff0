/** The categorical distribution: a variable list of named probability
    fields, chosen when the dtype is constructed and encoded in (and parsed
    back from) its canonical name `dist[categorical, f1, f2, ...]`. */
module CategoricalVariant {
  import opened Outcomes
  import opened Values
  import opened Text
  import opened Dicts

  /** The dtype; its only metadata is the field-name list, so two dtypes are
      equal exactly when their name lists are. */
  datatype CategoricalDtype = CategoricalDtype(names: seq<string>)

  /** A categorical scalar: one probability per field, and its dtype. */
  datatype Categorical = Categorical(theta: seq<Value>, dtype: CategoricalDtype)

  /** `to_tuple` gives the probabilities as stored. */
  function ToTuple(c: Categorical): seq<Value> { c.theta }

  /** A field list the constructor accepts: identifiers, none repeated. */
  predicate ValidNames(names: seq<string>)
  {
    (forall i :: 0 <= i < |names| ==> IsIdentifier(names[i])) && Distinct(names)
  }

  /** What the constructor makes of a field list.  A non-identifier raises
      `ValueError`; so does a repeated name, which the structured numpy
      layout refuses. */
  function Validate(names: seq<string>): Result<CategoricalDtype>
  {
    if ValidNames(names) then Ok(CategoricalDtype(names)) else Err(ValueError)
  }

  /** The constructor: checks every name in turn, then builds the layout. */
  method New(names: seq<string>) returns (r: Result<CategoricalDtype>)
    ensures r.Ok? <==> ValidNames(names)
    ensures r.Ok? ==> r.value.names == names
    ensures r.Err? ==> r.error == ValueError
    ensures r == Validate(names)
  {
    for i := 0 to |names|
      invariant forall j :: 0 <= j < i ==> IsIdentifier(names[j])
    {
      if !IsIdentifier(names[i]) {
        return Err(ValueError);
      }
    }
    if !Distinct(names) {
      return Err(ValueError);
    }
    r := Ok(CategoricalDtype(names));
  }

  const Family: string := "categorical"
  const Prefix: string := "dist[categorical"

  /** The canonical name: `"dist[" + ", ".join(["categorical", *names]) + "]"`. */
  function Name(d: CategoricalDtype): (r: string)
    ensures r == Prefix + FieldList(d.names) + "]"
  {
    JoinAfterHead(Family, d.names);
    "dist[" + Join(", ", [Family] + d.names) + "]"
  }

  // ---------------------------------------------------------------------
  // The name pattern `^dist\[categorical((?:\s*,\s*\w+)*)\s*\]$`.
  // The language is deterministic: after the family, a comma starts another
  // `\s*,\s*\w+` repetition and anything else must close with `\s*\]`, so a
  // left-to-right scan that consumes maximal runs of spaces and word
  // characters decides the match and finds group 1.

  function SkipSpace(s: string, i: nat): (j: nat)
    requires i <= |s|
    ensures i <= j <= |s|
    ensures j < |s| ==> !IsSpace(s[j])
    decreases |s| - i
  {
    if i < |s| && IsSpace(s[i]) then SkipSpace(s, i + 1) else i
  }

  /** Every character `SkipSpace` passes over is whitespace. */
  lemma {:induction false} SkippedSpaces(s: string, i: nat)
    requires i <= |s|
    ensures forall k :: i <= k < SkipSpace(s, i) ==> IsSpace(s[k])
    decreases |s| - i
  {
    if i < |s| && IsSpace(s[i]) {
      SkippedSpaces(s, i + 1);
    }
  }

  function SkipWord(s: string, i: nat): (j: nat)
    requires i <= |s|
    ensures i <= j <= |s|
    ensures j < |s| ==> !IsWordChar(s[j])
    decreases |s| - i
  {
    if i < |s| && IsWordChar(s[i]) then SkipWord(s, i + 1) else i
  }

  /** Every character `SkipWord` passes over is a word character. */
  lemma {:induction false} SkippedWord(s: string, i: nat)
    requires i <= |s|
    ensures forall k :: i <= k < SkipWord(s, i) ==> IsWordChar(s[k])
    decreases |s| - i
  {
    if i < |s| && IsWordChar(s[i]) {
      SkippedWord(s, i + 1);
    }
  }

  /** `(?:\s*,\s*\w+)*` from position `i`: where the repetitions end, or None
      when a comma is not followed by a word, so that no match exists. */
  function Repeats(s: string, i: nat): (e: Option<nat>)
    requires i <= |s|
    ensures e.Some? ==> i <= e.value <= |s|
    decreases |s| - i
  {
    var j := SkipSpace(s, i);
    if j < |s| && s[j] == ',' then
      var k := SkipSpace(s, j + 1);
      var m := SkipWord(s, k);
      if m == k then None else Repeats(s, m)
    else Some(i)
  }

  /** `\s*\]$`, where Python's `$` also matches just before a final newline. */
  predicate Closes(s: string, i: nat)
    requires i <= |s|
  {
    var j := SkipSpace(s, i);
    j < |s| && s[j] == ']' && (s[j + 1..] == "" || s[j + 1..] == "\n")
  }

  /** Group 1 of the name pattern when `s` matches it, else None. */
  function MatchFields(s: string): (r: Option<string>)
    ensures r.Some? ==> |Prefix| + |r.value| < |s|
    ensures r.Some? ==> s[..|Prefix|] == Prefix && s[|Prefix|..|Prefix| + |r.value|] == r.value
    ensures r.Some? ==> s[|s| - 1] == ']' || s[|s| - 1] == '\n'
  {
    if |s| < |Prefix| || s[..|Prefix|] != Prefix then None
    else
      var r := s[|Prefix|..];
      match Repeats(r, 0)
      case None => None
      case Some(e) => if Closes(r, e) then Some(r[..e]) else None
  }

  /** `construct_from_string`: a string that does not match raises
      `TypeError`; otherwise the group is split at commas, the piece before
      the first comma dropped, every piece stripped, and the names handed to
      the constructor (which may still raise `ValueError`). */
  function ConstructFromString(s: string): (r: Result<CategoricalDtype>)
    ensures r == Err(TypeError) <==> MatchFields(s).None?
    ensures r.Ok? ==> ValidNames(r.value.names)
    ensures r.Err? ==> r.error == TypeError || r.error == ValueError
  {
    match MatchFields(s)
    case None => Err(TypeError)
    case Some(group) => Validate(FieldNames(group))
  }

  /** The names in a matched field list: the pieces after its first comma,
      stripped of surrounding whitespace. */
  function FieldNames(group: string): seq<string>
  {
    var tokens := Split(group, ',')[1..];
    seq(|tokens|, i requires 0 <= i < |tokens| => Strip(tokens[i]))
  }

  // ---------------------------------------------------------------------
  // Round trip: parsing the canonical name gives back the dtype.

  /** The text after the family in a canonical name: `, f1, f2, ...`. */
  function FieldList(names: seq<string>): string
  {
    if |names| == 0 then "" else ", " + names[0] + FieldList(names[1..])
  }

  lemma {:induction false} JoinAfterHead(x: string, names: seq<string>)
    ensures Join(", ", [x] + names) == x + FieldList(names)
    decreases |names|
  {
    if |names| > 0 {
      JoinAfterHead(names[0], names[1..]);
      assert ([x] + names)[1..] == [names[0]] + names[1..];
    }
  }

  lemma {:induction false} SkipWordOver(s: string, i: nat, w: string)
    requires i + |w| <= |s| && s[i..i + |w|] == w
    requires forall k :: 0 <= k < |w| ==> IsWordChar(w[k])
    requires i + |w| == |s| || !IsWordChar(s[i + |w|])
    ensures SkipWord(s, i) == i + |w|
    decreases |w|
  {
    if |w| > 0 {
      assert s[i] == w[0];
      assert s[i + 1..i + 1 + |w[1..]|] == w[1..];
      SkipWordOver(s, i + 1, w[1..]);
    }
  }

  /** One `\s*,\s*\w+` repetition over `", " + n`. */
  lemma RepeatsStep(s: string, i: nat, n: string)
    requires IsIdentifier(n)
    requires i + 2 + |n| < |s|
    requires s[i] == ',' && s[i + 1] == ' ' && s[i + 2..i + 2 + |n|] == n
    requires !IsWordChar(s[i + 2 + |n|])
    ensures Repeats(s, i) == Repeats(s, i + 2 + |n|)
  {
    assert s[i + 2] == n[0];
    assert SkipSpace(s, i) == i;
    assert SkipSpace(s, i + 2) == i + 2;
    assert SkipSpace(s, i + 1) == i + 2;
    SkipWordOver(s, i + 2, n);
  }

  lemma {:induction false} RepeatsFieldList(s: string, i: nat, names: seq<string>)
    requires forall j :: 0 <= j < |names| ==> IsIdentifier(names[j])
    requires i + |FieldList(names)| < |s|
    requires s[i..i + |FieldList(names)|] == FieldList(names)
    requires s[i + |FieldList(names)|] == ']'
    ensures Repeats(s, i) == Some(i + |FieldList(names)|)
    decreases |names|
  {
    if |names| == 0 {
      assert FieldList(names) == "";
      RepeatsAtClose(s, i);
    } else {
      FieldListHead(s, i, names);
      RepeatsFieldList(s, i + 2 + |names[0]|, names[1..]);
      RepeatsFieldListCons(s, i, names);
    }
  }

  /** The first repetition of a field list, given the repetitions after it. */
  lemma RepeatsFieldListCons(s: string, i: nat, names: seq<string>)
    requires |names| > 0 && IsIdentifier(names[0])
    requires i + |FieldList(names)| < |s|
    requires s[i..i + |FieldList(names)|] == FieldList(names)
    requires s[i + |FieldList(names)|] == ']'
    requires Repeats(s, i + 2 + |names[0]|) == Some(i + |FieldList(names)|)
    ensures Repeats(s, i) == Some(i + |FieldList(names)|)
  {
    var n := names[0];
    var rest := FieldList(names[1..]);
    var e := i + 2 + |n|;
    FieldListHead(s, i, names);
    assert !IsWordChar(s[e]) by {
      if |rest| > 0 {
        assert s[e] == s[e..e + |rest|][0] == rest[0] == ',';
      }
    }
    RepeatsStep(s, i, n);
  }

  /** No repetition starts at a closing bracket. */
  lemma RepeatsAtClose(s: string, i: nat)
    requires i < |s| && s[i] == ']'
    ensures Repeats(s, i) == Some(i)
  {
    assert SkipSpace(s, i) == i;
  }

  /** Where a field list sits in `s`: a comma, a space, the first name, then the rest. */
  lemma FieldListHead(s: string, i: nat, names: seq<string>)
    requires |names| > 0
    requires i + |FieldList(names)| <= |s|
    requires s[i..i + |FieldList(names)|] == FieldList(names)
    ensures var e := i + 2 + |names[0]|;
      e + |FieldList(names[1..])| == i + |FieldList(names)| &&
      s[i] == ',' && s[i + 1] == ' ' && s[i + 2..e] == names[0] &&
      s[e..e + |FieldList(names[1..])|] == FieldList(names[1..])
  {
    var n := names[0];
    var rest := FieldList(names[1..]);
    assert FieldList(names) == (", " + n) + rest;
    SliceSplit(s, i, ", " + n, rest);
    SliceSplit(s, i, ", ", n);
    CommaSpaceAt(s, i);
  }

  lemma CommaSpaceAt(s: string, i: nat)
    requires i + 2 <= |s| && s[i..i + 2] == ", "
    ensures s[i] == ',' && s[i + 1] == ' '
  {
    assert s[i] == s[i..i + 2][0];
    assert s[i + 1] == s[i..i + 2][1];
  }

  /** A non-empty field list starts with its comma. */
  lemma FieldListStart(names: seq<string>)
    requires |names| > 0
    ensures FieldList(names)[0] == ','
  {
  }

  /** The pieces the field list splits into after its first comma: each name behind one space. */
  function Padded(names: seq<string>): (r: seq<string>)
    ensures |r| == |names|
    ensures forall i :: 0 <= i < |names| ==> r[i] == " " + names[i]
  {
    if |names| == 0 then [] else [" " + names[0]] + Padded(names[1..])
  }

  /** The field list splits at its commas into the names, each behind one space. */
  lemma {:induction false} SplitFieldList(names: seq<string>)
    requires forall i :: 0 <= i < |names| ==> ',' !in names[i]
    ensures Split(FieldList(names), ',') == [""] + Padded(names)
    decreases |names|
  {
    if |names| > 0 {
      var n := names[0];
      var rest := names[1..];
      var tail := " " + n + FieldList(rest);
      assert FieldList(names) == [','] + tail;
      SplitAtSep("", ',', tail);
      assert "" + [','] + tail == [','] + tail;
      assert Split(FieldList(names), ',') == [""] + Split(tail, ',');
      assert Padded(names) == [" " + n] + Padded(rest);
      if |rest| == 0 {
        assert tail == " " + n;
        assert ',' !in tail;
        SplitNoSep(tail, ',');
      } else {
        var tail' := " " + rest[0] + FieldList(rest[1..]);
        assert FieldList(rest) == [','] + tail';
        assert tail == (" " + n) + [','] + tail';
        SplitAtSep(" " + n, ',', tail');
        assert Split(tail, ',') == [" " + n] + Split(tail', ',');
        SplitAtSep("", ',', tail');
        assert "" + [','] + tail' == [','] + tail';
        SplitFieldList(rest);
        var split' := Split(tail', ',');
        assert Split(FieldList(rest), ',') == [""] + split';
        assert ([""] + split')[1..] == split';
        assert ([""] + Padded(rest))[1..] == Padded(rest);
      }
    }
  }

  /** The canonical name, possibly followed by the one newline `$` tolerates,
      matches the pattern with the field list as group 1. */
  lemma MatchName(d: CategoricalDtype, ending: string)
    requires ValidNames(d.names)
    requires ending == "" || ending == "\n"
    ensures MatchFields(Name(d) + ending) == Some(FieldList(d.names))
  {
    var fl := FieldList(d.names);
    var r := fl + "]" + ending;
    assert Name(d) + ending == Prefix + r;
    assert r[0..|fl|] == fl;
    assert r[|fl|] == ']';
    RepeatsFieldList(r, 0, d.names);
    assert SkipSpace(r, |fl|) == |fl|;
    assert r[|fl| + 1..] == ending;
    assert r[..|fl|] == fl;
    MatchAfterPrefix(r, |fl|);
  }

  /** The pattern on `dist[categorical` followed by `r`, once the
      repetitions end at `e` and the closing bracket follows. */
  lemma MatchAfterPrefix(r: string, e: nat)
    requires e <= |r| && Repeats(r, 0) == Some(e) && Closes(r, e)
    ensures MatchFields(Prefix + r) == Some(r[..e])
  {
    var s := Prefix + r;
    assert s[..|Prefix|] == Prefix;
    assert s[|Prefix|..] == r;
  }

  /** Splitting the field list and stripping the pieces after the first gives the names. */
  lemma TokensOfFieldList(names: seq<string>)
    requires ValidNames(names)
    ensures FieldNames(FieldList(names)) == names
  {
    forall i | 0 <= i < |names| ensures ',' !in names[i] {
      IdentifierShape(names[i]);
    }
    SplitFieldList(names);
    var tokens := Split(FieldList(names), ',')[1..];
    assert tokens == Padded(names);
    forall i | 0 <= i < |tokens| ensures Strip(tokens[i]) == names[i] {
      StripName(names[i]);
    }
  }

  lemma StripName(n: string)
    requires IsIdentifier(n)
    ensures Strip(" " + n) == n
  {
    IdentifierShape(n);
    StripPadded(" ", n);
  }

  /** An identifier holds no comma and neither starts nor ends with whitespace. */
  lemma IdentifierShape(n: string)
    requires IsIdentifier(n)
    ensures ',' !in n
    ensures !IsSpace(n[0]) && !IsSpace(n[|n| - 1])
  {
    assert IsWordChar(n[0]) && IsWordChar(n[|n| - 1]);
  }

  /** Parsing `Name(d)`, possibly followed by the one newline `$` tolerates, gives `d`. */
  lemma NameRoundTripWith(d: CategoricalDtype, ending: string)
    requires ValidNames(d.names)
    requires ending == "" || ending == "\n"
    ensures ConstructFromString(Name(d) + ending) == Ok(d)
  {
    MatchName(d, ending);
    TokensOfFieldList(d.names);
  }

  /** `construct_from_string(d.name) == d` for every dtype the constructor accepts. */
  lemma NameRoundTrip(d: CategoricalDtype)
    requires ValidNames(d.names)
    ensures ConstructFromString(Name(d)) == Ok(d)
  {
    NameRoundTripWith(d, "");
    assert Name(d) + "" == Name(d);
  }

  /** Canonical names identify dtypes: equal names mean equal field lists. */
  lemma NameInjective(a: CategoricalDtype, b: CategoricalDtype)
    requires ValidNames(a.names) && ValidNames(b.names)
    ensures Name(a) == Name(b) <==> a == b
  {
    if Name(a) == Name(b) {
      NameRoundTrip(a);
      NameRoundTrip(b);
    }
  }

  /** Whatever string was parsed, the dtype obtained prints as a name that parses back to it. */
  lemma ParsedIsCanonical(s: string, d: CategoricalDtype)
    requires ConstructFromString(s) == Ok(d)
    ensures ValidNames(d.names)
    ensures ConstructFromString(Name(d)) == Ok(d)
  {
    NameRoundTrip(d);
  }

  // ---------------------------------------------------------------------
  // Every spelling: the strings the pattern admits, stated declaratively.
  // Group 1 is a run of units `\s*,\s*\w+`; what follows it is `\s*`, the
  // closing bracket and, since `$` also matches before a final newline, at
  // most one newline.

  /** One repetition of `\s*,\s*\w+`: the whitespace before the comma, the
      whitespace after it, and the word. */
  datatype Unit = Unit(before: string, after: string, word: string)

  predicate IsWord(w: string)
  {
    |w| > 0 && forall i :: 0 <= i < |w| ==> IsWordChar(w[i])
  }

  predicate ValidUnit(u: Unit)
  {
    AllSpace(u.before) && AllSpace(u.after) && IsWord(u.word)
  }

  predicate ValidUnits(us: seq<Unit>)
  {
    forall k :: 0 <= k < |us| ==> ValidUnit(us[k])
  }

  function UnitText(u: Unit): string
  {
    u.before + "," + u.after + u.word
  }

  function UnitsText(us: seq<Unit>): string
  {
    if |us| == 0 then "" else UnitText(us[0]) + UnitsText(us[1..])
  }

  /** The words of the units, in order. */
  function Words(us: seq<Unit>): seq<string>
  {
    seq(|us|, k requires 0 <= k < |us| => us[k].word)
  }

  /** `s` is spelled as the pattern demands, with group 1 made of the units `us`. */
  predicate Spelling(s: string, us: seq<Unit>, t: string, ending: string)
  {
    ValidUnits(us) && AllSpace(t) && (ending == "" || ending == "\n") &&
    s == Prefix + UnitsText(us) + t + "]" + ending
  }

  lemma UnitsCons(u: Unit, rest: seq<Unit>)
    ensures UnitsText([u] + rest) == UnitText(u) + UnitsText(rest)
    ensures ValidUnit(u) && ValidUnits(rest) ==> ValidUnits([u] + rest)
  {
    assert ([u] + rest)[1..] == rest;
  }

  lemma ValidTail(us: seq<Unit>)
    requires ValidUnits(us) && |us| > 0
    ensures ValidUnit(us[0]) && ValidUnits(us[1..])
  {
    forall k | 0 <= k < |us| - 1 ensures ValidUnit(us[1..][k]) {
      assert us[1..][k] == us[k + 1];
    }
  }

  /** A unit holds no comma besides its own. */
  lemma NoComma(u: Unit)
    requires ValidUnit(u)
    ensures ',' !in u.before && ',' !in u.after + u.word
  {
    forall c | 0 <= c < |u.after + u.word| ensures (u.after + u.word)[c] != ',' {
      if c < |u.after| {
        assert IsSpace(u.after[c]);
      } else {
        assert IsWordChar(u.word[c - |u.after|]);
      }
    }
    forall c | 0 <= c < |u.before| ensures u.before[c] != ',' {
      assert IsSpace(u.before[c]);
    }
  }

  lemma SliceAllSpace(s: string, a: nat, b: nat)
    requires a <= b <= |s|
    requires forall p :: a <= p < b ==> IsSpace(s[p])
    ensures AllSpace(s[a..b])
  {
    forall p | 0 <= p < b - a ensures IsSpace(s[a..b][p]) {
      assert s[a..b][p] == s[a + p];
    }
  }

  /** Slices of whitespace, whitespace and word characters make a unit. */
  lemma SliceUnit(s: string, i: nat, j: nat, k: nat, m: nat)
    requires i <= j && j + 1 <= k < m <= |s|
    requires forall p :: i <= p < j ==> IsSpace(s[p])
    requires forall p :: j + 1 <= p < k ==> IsSpace(s[p])
    requires forall p :: k <= p < m ==> IsWordChar(s[p])
    ensures ValidUnit(Unit(s[i..j], s[j + 1..k], s[k..m]))
  {
    SliceAllSpace(s, i, j);
    SliceAllSpace(s, j + 1, k);
    forall p | 0 <= p < m - k ensures IsWordChar(s[k..m][p]) {
      assert s[k..m][p] == s[k + p];
    }
  }

  /** The text from `i` to `e` cut at a comma `j` and two more positions. */
  lemma UnitSlices(s: string, i: nat, j: nat, k: nat, m: nat, e: nat)
    requires i <= j && j + 1 <= k <= m <= e <= |s| && s[j] == ','
    ensures s[i..e] == s[i..j] + "," + s[j + 1..k] + s[k..m] + s[m..e]
  {
    SliceJoin(s, i, j, e);
    SliceJoin(s, j, j + 1, e);
    SliceJoin(s, j + 1, k, e);
    SliceJoin(s, k, m, e);
    assert s[j..j + 1] == ",";
  }

  lemma {:induction false} SkipSpaceTo(s: string, i: nat, j: nat)
    requires i <= j <= |s|
    requires forall k :: i <= k < j ==> IsSpace(s[k])
    requires j == |s| || !IsSpace(s[j])
    ensures SkipSpace(s, i) == j
    decreases j - i
  {
    if i < j {
      SkipSpaceTo(s, i + 1, j);
    }
  }

  lemma {:induction false} SkipWordTo(s: string, i: nat, j: nat)
    requires i <= j <= |s|
    requires forall k :: i <= k < j ==> IsWordChar(s[k])
    requires j == |s| || !IsWordChar(s[j])
    ensures SkipWord(s, i) == j
    decreases j - i
  {
    if i < j {
      SkipWordTo(s, i + 1, j);
    }
  }

  /** The scan consumes one unit whole. */
  lemma UnitStep(s: string, i: nat, u: Unit)
    requires ValidUnit(u)
    requires i + |UnitText(u)| <= |s| && s[i..i + |UnitText(u)|] == UnitText(u)
    requires i + |UnitText(u)| == |s| || !IsWordChar(s[i + |UnitText(u)|])
    ensures Repeats(s, i) == Repeats(s, i + |UnitText(u)|)
  {
    var c := i + |u.before|;
    var k := c + 1 + |u.after|;
    var m := k + |u.word|;
    UnitChars(s, i, u, c, k, m);
    SkipSpaceTo(s, i, c);
    SkipSpaceTo(s, c + 1, k);
    SkipWordTo(s, k, m);
    ScanStep(s, i, c, k, m);
  }

  /** Where a unit's text sits in `s`: its comma at `c`, its word from `k`
      to `m`. */
  lemma UnitChars(s: string, i: nat, u: Unit, c: nat, k: nat, m: nat)
    requires ValidUnit(u)
    requires i + |UnitText(u)| <= |s| && s[i..i + |UnitText(u)|] == UnitText(u)
    requires c == i + |u.before| && k == c + 1 + |u.after| && m == k + |u.word|
    ensures m == i + |UnitText(u)| && k < m
    ensures s[c] == ',' && !IsSpace(s[k])
    ensures forall p :: i <= p < c ==> IsSpace(s[p])
    ensures forall p :: c + 1 <= p < k ==> IsSpace(s[p])
    ensures forall p :: k <= p < m ==> IsWordChar(s[p])
  {
    assert m == i + |UnitText(u)|;
    SliceSplit(s, i, u.before + "," + u.after, u.word);
    SliceSplit(s, i, u.before + ",", u.after);
    SliceSplit(s, i, u.before, ",");
    assert s[c] == s[c..c + 1][0] == ',';
    assert s[k] == s[k..m][0] == u.word[0];
    assert IsWordChar(u.word[0]);
    SpacesAt(s, i, c);
    SpacesAt(s, c + 1, k);
    forall p | k <= p < m ensures IsWordChar(s[p]) {
      assert s[p] == s[k..m][p - k];
    }
  }

  lemma SpacesAt(s: string, a: nat, b: nat)
    requires a <= b <= |s| && AllSpace(s[a..b])
    ensures forall p :: a <= p < b ==> IsSpace(s[p])
  {
    forall p | a <= p < b ensures IsSpace(s[p]) {
      assert s[p] == s[a..b][p - a];
    }
  }

  /** Units text starts with whitespace or a comma, never a word character. */
  lemma UnitsTextStart(us: seq<Unit>)
    requires ValidUnits(us) && |us| > 0
    ensures |UnitsText(us)| > 0 && !IsWordChar(UnitsText(us)[0])
  {
    var u := us[0];
    assert ValidUnit(u);
    assert UnitsText(us)[0] == UnitText(u)[0];
    if |u.before| > 0 {
      assert UnitText(u)[0] == u.before[0];
    } else {
      assert UnitText(u)[0] == ',';
    }
  }

  lemma UnitsSlices(s: string, i: nat, us: seq<Unit>, e: nat, m: nat)
    requires |us| > 0
    requires e == i + |UnitsText(us)| <= |s| && s[i..e] == UnitsText(us)
    requires m == i + |UnitText(us[0])|
    ensures m + |UnitsText(us[1..])| == e
    ensures s[i..m] == UnitText(us[0]) && s[m..e] == UnitsText(us[1..])
  {
    assert UnitsText(us) == UnitText(us[0]) + UnitsText(us[1..]);
    SliceSplit(s, i, UnitText(us[0]), UnitsText(us[1..]));
  }

  /** Where the first of a run of units ends in `s`, and what follows it. */
  lemma UnitsHead(s: string, i: nat, us: seq<Unit>, e: nat, m: nat)
    requires ValidUnits(us) && |us| > 0
    requires e == i + |UnitsText(us)| <= |s| && s[i..e] == UnitsText(us)
    requires e == |s| || !IsWordChar(s[e])
    requires m == i + |UnitText(us[0])|
    ensures ValidUnit(us[0]) && ValidUnits(us[1..])
    ensures m + |UnitsText(us[1..])| == e && m <= |s|
    ensures s[i..m] == UnitText(us[0]) && s[m..e] == UnitsText(us[1..])
    ensures m == |s| || !IsWordChar(s[m])
  {
    UnitsSlices(s, i, us, e, m);
    ValidTail(us);
    if |us| > 1 {
      UnitsTextStart(us[1..]);
      assert s[m] == s[m..e][0];
    }
  }

  /** The repetition group consumes a run of units whole, when no word
      character follows them, and goes on from there. */
  lemma {:induction false} RepeatsUnits(s: string, i: nat, us: seq<Unit>, e: nat)
    requires ValidUnits(us)
    requires e == i + |UnitsText(us)| <= |s| && s[i..e] == UnitsText(us)
    requires e == |s| || !IsWordChar(s[e])
    ensures Repeats(s, i) == Repeats(s, e)
    decreases |us|
  {
    if |us| > 0 {
      var m := i + |UnitText(us[0])|;
      UnitsHead(s, i, us, e, m);
      UnitStep(s, i, us[0]);
      RepeatsUnits(s, m, us[1..], e);
    } else {
      assert |UnitsText(us)| == 0;
    }
  }

  /** Every spelling matches, with its units as group 1. */
  lemma SpelledMatches(s: string, us: seq<Unit>, t: string, ending: string)
    requires Spelling(s, us, t, ending)
    ensures MatchFields(s) == Some(UnitsText(us))
  {
    var g := UnitsText(us);
    var r := g + t + "]" + ending;
    var e := |g|;
    SpellingParts(s, g, t, ending);
    ClosingTail(r, e, t, ending);
    RepeatsUnits(r, 0, us, e);
    MatchAfterPrefix(r, e);
  }

  /** The pieces of a spelled string, as slices after the prefix. */
  lemma SpellingParts(s: string, g: string, t: string, ending: string)
    requires s == Prefix + g + t + "]" + ending
    ensures s == Prefix + (g + t + "]" + ending)
    ensures (g + t + "]" + ending)[0..|g|] == g
    ensures (g + t + "]" + ending)[..|g|] == g
    ensures (g + t + "]" + ending)[|g|..] == t + "]" + ending
  {
    var r := g + t + "]" + ending;
    assert r == g + (t + "]" + ending);
  }

  /** What follows group 1 in a spelling: whitespace, the bracket and the
      ending, where no further unit starts and the closing part matches. */
  lemma ClosingTail(r: string, e: nat, t: string, ending: string)
    requires e <= |r| && r[e..] == t + "]" + ending
    requires AllSpace(t) && (ending == "" || ending == "\n")
    ensures Repeats(r, e) == Some(e) && Closes(r, e)
    ensures e == |r| || !IsWordChar(r[e])
  {
    forall p | e <= p < e + |t| ensures IsSpace(r[p]) {
      assert r[p] == r[e..][p - e] == t[p - e];
    }
    assert r[e + |t|] == r[e..][|t|] == ']';
    SkipSpaceTo(r, e, e + |t|);
    assert r[e + |t| + 1..] == r[e..][|t| + 1..] == ending;
    assert r[e] == r[e..][0];
  }

  /** `\s*\]$` from `i`, declaratively: whitespace, the bracket, then the
      end of the string or one final newline. */
  lemma ClosesSpec(s: string, i: nat)
    requires i <= |s|
    ensures Closes(s, i) <==>
      exists t, ending :: AllSpace(t) && (ending == "" || ending == "\n") && s[i..] == t + "]" + ending
  {
    if Closes(s, i) {
      var j := SkipSpace(s, i);
      SkippedSpaces(s, i);
      SliceAllSpace(s, i, j);
      var t := s[i..j];
      var ending := s[j + 1..];
      assert s[i..] == t + "]" + ending by {
        SplitAround(s, i, j - i, j - i);
      }
    }
    if exists t, ending :: AllSpace(t) && (ending == "" || ending == "\n") && s[i..] == t + "]" + ending {
      var t, ending :| AllSpace(t) && (ending == "" || ending == "\n") && s[i..] == t + "]" + ending;
      ClosingTail(s, i, t, ending);
    }
  }

  /** The units the scan passes over, from position `i`. */
  function ScanUnits(s: string, i: nat): seq<Unit>
    requires i <= |s|
    decreases |s| - i
  {
    var j := SkipSpace(s, i);
    if j < |s| && s[j] == ',' then
      var k := SkipSpace(s, j + 1);
      var m := SkipWord(s, k);
      if m == k then [] else [Unit(s[i..j], s[j + 1..k], s[k..m])] + ScanUnits(s, m)
    else []
  }

  /** One step of the scan: a unit is consumed and the scan goes on after it. */
  lemma ScanStep(s: string, i: nat, j: nat, k: nat, m: nat)
    requires i <= |s| && j == SkipSpace(s, i) && j < |s| && s[j] == ','
    requires k == SkipSpace(s, j + 1) && m == SkipWord(s, k) && m != k
    ensures Repeats(s, i) == Repeats(s, m)
    ensures ScanUnits(s, i) == [Unit(s[i..j], s[j + 1..k], s[k..m])] + ScanUnits(s, m)
  {
  }

  /** What one step of the scan passes over is a unit. */
  lemma ScanHead(s: string, i: nat, j: nat, k: nat, m: nat)
    requires i <= |s| && j == SkipSpace(s, i) && j < |s| && s[j] == ','
    requires k == SkipSpace(s, j + 1) && m == SkipWord(s, k) && m != k
    ensures ValidUnit(Unit(s[i..j], s[j + 1..k], s[k..m]))
  {
    SkippedSpaces(s, i);
    SkippedSpaces(s, j + 1);
    SkippedWord(s, k);
    SliceUnit(s, i, j, k, m);
  }

  /** What the repetition group consumes is a run of units. */
  lemma {:induction false} ScanSound(s: string, i: nat, e: nat)
    requires i <= e <= |s| && Repeats(s, i) == Some(e)
    ensures ValidUnits(ScanUnits(s, i))
    ensures s[i..e] == UnitsText(ScanUnits(s, i))
    decreases |s| - i
  {
    var j := SkipSpace(s, i);
    if j < |s| && s[j] == ',' {
      var k := SkipSpace(s, j + 1);
      var m := SkipWord(s, k);
      assert m != k;
      ScanStep(s, i, j, k, m);
      ScanSound(s, m, e);
      var u := Unit(s[i..j], s[j + 1..k], s[k..m]);
      ScanHead(s, i, j, k, m);
      var rest := ScanUnits(s, m);
      UnitsCons(u, rest);
      UnitSlices(s, i, j, k, m, e);
    } else {
      assert e == i;
      assert ScanUnits(s, i) == [];
    }
  }

  /** Every match is a spelling, with group 1 as its units. */
  lemma MatchedIsSpelled(s: string)
    requires MatchFields(s).Some?
    ensures exists us, t, ending :: Spelling(s, us, t, ending) && MatchFields(s).value == UnitsText(us)
  {
    var r := s[|Prefix|..];
    assert s[..|Prefix|] == Prefix && Repeats(r, 0).Some?;
    var e := Repeats(r, 0).value;
    assert Closes(r, e) && MatchFields(s).value == r[..e];
    var j := SkipSpace(r, e);
    ScanSound(r, 0, e);
    SkippedSpaces(r, e);
    var us := ScanUnits(r, 0);
    var t := r[e..j];
    var ending := r[j + 1..];
    assert r[0..e] == r[..e];
    assert r[j] == ']';
    SplitAround(s, |Prefix|, e, j);
    assert Spelling(s, us, t, ending);
  }

  /** The pattern, declaratively: `s` matches with group 1 equal to `g`
      exactly when `s` is spelled with units whose text is `g`. */
  lemma MatchFieldsSpec(s: string, g: string)
    ensures MatchFields(s) == Some(g) <==>
      exists us, t, ending :: Spelling(s, us, t, ending) && g == UnitsText(us)
  {
    if MatchFields(s) == Some(g) {
      MatchedIsSpelled(s);
    }
    if exists us, t, ending :: Spelling(s, us, t, ending) && g == UnitsText(us) {
      var us, t, ending :| Spelling(s, us, t, ending) && g == UnitsText(us);
      SpelledMatches(s, us, t, ending);
    }
  }

  /** The pieces a run of units splits into after its first comma: each
      piece holds one unit's whitespace and word, then the whitespace
      before the next comma. */
  function Pieces(us: seq<Unit>): seq<string>
  {
    if |us| == 0 then []
    else [us[0].after + us[0].word + (if |us| > 1 then us[1].before else "")] + Pieces(us[1..])
  }

  lemma Regroup(p: string, before: string, after: string, word: string, t: string)
    ensures p + (before + "," + after + word + t) == (p + before) + [','] + (after + word + t)
  {
  }

  lemma {:induction false} SplitUnits(p: string, us: seq<Unit>)
    requires ',' !in p && ValidUnits(us)
    ensures Split(p + UnitsText(us), ',') ==
      if |us| == 0 then [p] else [p + us[0].before] + Pieces(us)
    decreases |us|
  {
    if |us| == 0 {
      assert p + UnitsText(us) == p;
      SplitNoSep(p, ',');
    } else {
      var u := us[0];
      var rest := us[1..];
      ValidTail(us);
      NoComma(u);
      var head := u.after + u.word;
      assert ',' !in p + u.before;
      assert us == [u] + rest;
      UnitsCons(u, rest);
      Regroup(p, u.before, u.after, u.word, UnitsText(rest));
      SplitAtSep(p + u.before, ',', head + UnitsText(rest));
      SplitUnits(head, rest);
      if |rest| == 0 {
        assert head + "" == head;
      }
    }
  }

  lemma {:induction false} PiecesAt(us: seq<Unit>, k: nat)
    requires k < |us|
    ensures |Pieces(us)| == |us|
    ensures Pieces(us)[k] == us[k].after + us[k].word + (if k + 1 < |us| then us[k + 1].before else "")
    decreases k
  {
    PiecesLength(us);
    if k > 0 {
      PiecesAt(us[1..], k - 1);
    }
  }

  lemma {:induction false} PiecesLength(us: seq<Unit>)
    ensures |Pieces(us)| == |us|
  {
    if |us| > 0 {
      PiecesLength(us[1..]);
    }
  }

  /** The names `construct_from_string` extracts from a run of units are
      exactly the units' words. */
  lemma UnitsFieldNames(us: seq<Unit>)
    requires ValidUnits(us)
    ensures FieldNames(UnitsText(us)) == Words(us)
  {
    var g := UnitsText(us);
    SplitUnits("", us);
    assert "" + g == g;
    assert Split(g, ',')[1..] == Pieces(us);
    PiecesLength(us);
    var names := FieldNames(g);
    assert |names| == |us|;
    forall k | 0 <= k < |us| ensures names[k] == Words(us)[k] {
      PieceStripped(us, k);
    }
  }

  /** Stripping a piece leaves its unit's word. */
  lemma PieceStripped(us: seq<Unit>, k: nat)
    requires ValidUnits(us) && k < |us|
    ensures |Pieces(us)| == |us| && Strip(Pieces(us)[k]) == us[k].word
  {
    PiecesAt(us, k);
    assert ValidUnit(us[k]);
    var w := us[k].word;
    var next := if k + 1 < |us| then us[k + 1].before else "";
    assert AllSpace(next) by {
      if k + 1 < |us| {
        assert ValidUnit(us[k + 1]);
      }
    }
    assert !IsSpace(w[0]) && !IsSpace(w[|w| - 1]) by {
      assert IsWordChar(w[0]) && IsWordChar(w[|w| - 1]);
    }
    StripSurrounded(us[k].after, w, next);
  }

  /** `construct_from_string` on any spelling: the words of group 1, handed
      to the constructor. */
  lemma ConstructSpelled(s: string, us: seq<Unit>, t: string, ending: string)
    requires Spelling(s, us, t, ending)
    ensures ConstructFromString(s) == Validate(Words(us))
  {
    SpelledMatches(s, us, t, ending);
    UnitsFieldNames(us);
  }

  // ---------------------------------------------------------------------
  // Concrete names.

  /** `"dist[categorical, a, b]"` names the fields `a` and `b`. */
  lemma ParseTwoFields()
    ensures ConstructFromString("dist[categorical, a, b]") == Ok(CategoricalDtype(["a", "b"]))
  {
    var d := CategoricalDtype(["a", "b"]);
    TwoFieldsValid();
    TwoFieldsName();
    NameRoundTrip(d);
  }

  lemma TwoFieldsValid()
    ensures ValidNames(["a", "b"])
  {
    var ns := ["a", "b"];
    assert IsIdentifier(ns[0]) && IsIdentifier(ns[1]);
  }

  lemma TwoFieldsName()
    ensures Name(CategoricalDtype(["a", "b"])) == "dist[categorical, a, b]"
  {
    var d := CategoricalDtype(["a", "b"]);
    assert d.names[1..] == ["b"];
    assert FieldList(["b"]) == ", b";
    assert FieldList(d.names) == ", a, b";
  }

  /** The pattern admits an empty field list. */
  lemma ParseNoFields()
    ensures ConstructFromString("dist[categorical]") == Ok(CategoricalDtype([]))
  {
    NameRoundTrip(CategoricalDtype([]));
    assert Join(", ", [Family]) == "categorical";
  }

  /** A bracket where a field name should be does not match: `TypeError`. */
  lemma RejectOpenBracket()
    ensures ConstructFromString("dist[categorical, []") == Err(TypeError)
  {
    var r := ", []";
    assert "dist[categorical, []"[|Prefix|..] == r;
    assert SkipSpace(r, 0) == 0;
    assert SkipSpace(r, 1) == 2;
    assert SkipWord(r, 2) == 2;
    assert Repeats(r, 0) == None;
  }

  /** A field name with a space does not match: `TypeError`. */
  lemma RejectSpaceInName()
    ensures ConstructFromString("dist[categorical, hello world]") == Err(TypeError)
  {
    var r := ", hello world]";
    assert "dist[categorical, hello world]"[|Prefix|..] == r;
    assert SkipSpace(r, 0) == 0;
    assert SkipSpace(r, 1) == 2;
    assert SkipWord(r, 2) == 7;
    assert SkipSpace(r, 7) == 8;
    assert Repeats(r, 7) == Some(7);
    assert !Closes(r, 7);
  }

  /** A word that is not an identifier matches the pattern and is refused by
      the constructor: `ValueError`. */
  lemma RejectDigitFirst()
    ensures ConstructFromString("dist[categorical, 1a]") == Err(ValueError)
  {
    MatchDigitFirst();
    DigitFirstNames();
    DigitFirstInvalid();
  }

  lemma DigitFirstNames()
    ensures FieldNames(", 1a") == ["1a"]
  {
    DigitFirstTokens();
  }

  lemma DigitFirstInvalid()
    ensures Validate(["1a"]) == Err(ValueError)
  {
    var names := ["1a"];
    assert IsDigit(names[0][0]);
    assert !ValidNames(names);
  }

  lemma DigitFirstTokens()
    ensures Split(", 1a", ',')[1..] == [" 1a"]
    ensures Strip(" 1a") == "1a"
  {
    SplitNoSep(" 1a", ',');
    SplitAtSep("", ',', " 1a");
    assert "" + [','] + " 1a" == ", 1a";
    StripPadded(" ", "1a");
  }

  lemma MatchDigitFirst()
    ensures MatchFields("dist[categorical, 1a]") == Some(", 1a")
  {
    var r := ", 1a]";
    assert "dist[categorical, 1a]"[|Prefix|..] == r;
    assert "dist[categorical, 1a]"[..|Prefix|] == Prefix;
    assert SkipSpace(r, 0) == 0;
    assert SkipSpace(r, 1) == 2;
    assert SkipWord(r, 2) == 4;
    assert SkipSpace(r, 4) == 4;
    assert Repeats(r, 4) == Some(4);
    assert Repeats(r, 0) == Some(4);
    assert Closes(r, 4);
    assert r[..4] == ", 1a";
  }
}

# distribution-pandas-dtype, modelled in Dafny

This project models the core of `distribution-pandas-dtype`. That library gives pandas an
extension type whose values are probability distributions. It ships three distributions:

- Bernoulli, with the field `p`;
- log-normal, with the fields `mu` and `sigma`;
- categorical, whose field names are chosen when the dtype is constructed. They are written
  into its name, e.g. `dist[categorical, a, b]`.

Each Series of distributions is stored as a numpy structured (record) buffer. Every field is a
64-bit float. Where numpy's behaviour differs between releases, the model follows numpy 1.25
and 1.26, the releases the code's use of `np.NaN` still runs on.

The modelled objects are:

- **The generic structured extension type** (`StructuredBase`): a dtype with a registered name,
  a field layout and a record stored for `None`, and an array class over a record buffer.
- **The distribution dtypes** (`DistributionBase`, `BernoulliVariant`, `LogNormalVariant`,
  `CategoricalVariant`). This covers the conversions between scalars and records
  (`_get_scalar`, `_set_scalar`) and `to_dict`. It also covers the categorical canonical name
  and its parser (`construct_from_string`), and the lookup of a dtype by name over the
  registry.
- **The distribution array** (`DistributionArrays`): integer and array indexing, assignment,
  `==`, `isna`, `copy`, concatenation, `take`, `nbytes` and field views.
- **The Arrow interchange** of both array types (`Interchange`):
  - `__arrow_array__` writes one child column per field;
  - `__from_arrow__` combines the chunks and reads each field back by name.
- **The `.dist` Series accessor** (`Accessor`). It reads a field, writes a scalar, a sequence
  or an index-aligned Series into a field, and unpacks all fields.

Both array classes repeat the same row-level numpy logic line for line, so that logic is
modelled once, in `Columnar`. It covers:

- index normalisation;
- boolean masks and integer arrays;
- broadcasting in assignment;
- scatter writes, where the last write wins;
- the or-reduced NaN mask;
- record-wise `==`;
- concatenation;
- `take`.

A numpy field view shares the array's buffer. It is modelled by the class `Columnar.FieldView`,
which holds the same `array<Record>` as the array it came from. A write through a view is
therefore a write to the array, and the accessor proofs rely on that aliasing.

A float is abstracted to `Num(real)` or `NaN`, since the core does no arithmetic. Equality
follows Python: NaN is never equal to anything. Python exceptions become the `Error` tags of
`Outcomes`. A failing operation returns `Err(e)` or `Raised(e)` and leaves the state unchanged.

Where the repository's tests and its code disagree, the model follows the code:

- `tests/test_categorical.py:58-62` expects `dist[categorical, hello world, First Class, A-Z,
  o'clock]` to give those four names. The name pattern at `src/distribution/categorical.py:16`
  only admits word characters in a field, so the string does not match and the code raises
  `TypeError` (`CategoricalVariant.RejectSpaceInName`).
- The same test expects `ValueError` for `dist[categorical, []`. That string does not match the
  pattern either, so the code raises `TypeError` (`CategoricalVariant.RejectOpenBracket`). The
  constructor's `ValueError` is raised only for strings that match the pattern but whose words
  are not valid field names. Either a word is not an identifier, e.g. `1a`
  (`CategoricalVariant.RejectDigitFirst`), or a word is repeated, which `np.dtype` refuses as a
  duplicate field name (src/distribution/categorical.py:44, `CategoricalVariant.New`).
- `dist[categorical]` is accepted and has no fields. Its `isna` reduces an empty list of masks,
  which raises `TypeError` (`DistributionArrays.DistributionArray.IsNA`).
- `_concat_same_type` does not compare dtypes. Arrays of two dtypes with the same field list
  concatenate under the first dtype. For the generic structured array the model refuses layouts
  whose item sizes differ, which is narrower than numpy 1.25 (see "## Left out").
- Only the categorical dtype checks that a stored scalar has this very dtype. The fixed
  families accept any scalar whose tuple has the right width
  (`DistributionBase.DtypeCheckOnlyForCategorical`).

## Model

| member | source | states |
|---|---|---|
| Columnar.NormIndex | src/distribution/array.py:57-59 | an integer index is valid exactly on `[-n, n)`, and a negative index counts from the end |
| Columnar.Selected | src/distribution/array.py:60-62 | a boolean mask selects exactly its true positions, in increasing order |
| Columnar.Resolve | src/distribution/array.py:60-62 | a mask must have one entry per row and selects exactly its true rows, in increasing order and each once; an integer array must hold valid indices, taken in order; otherwise `IndexError` |
| Columnar.GatherMask | src/distribution/array.py:60-62 | `a[mask]` keeps exactly the rows whose mask entry is true, in their order |
| Columnar.Spread | src/distribution/array.py:68-70 | a scalar or a one-item sequence is broadcast to every selected row, and a sequence of exactly that length is used as is; any other length raises `ValueError` |
| Columnar.ScatterFrame | src/distribution/array.py:68-70 | `a[ps] = vs` keeps the length, leaves every row that no position names unchanged, and the last write lands at its position |
| Columnar.LastWrite | src/distribution/array.py:68-70 | the last write aimed at a position, and no later write to it |
| Columnar.ScatterAt | src/distribution/array.py:68-70 | after `a[ps] = vs`, a row holds the value of the last write aimed at it, or its old value |
| Columnar.Store | src/distribution/array.py:68-70 | writing element by element leaves exactly the scatter of the values |
| Columnar.AssignRows | src/distribution/array.py:64-70 | with an array or mask indexer: `IndexError` for a bad indexer, then `ValueError` for a value that does not fit; nothing changes on error, otherwise the rows become the scatter and keep their width |
| Columnar.Marshal | src/distribution/array.py:30-32 | filling scalar by scalar succeeds iff every scalar converts, and then gives each converted record in order; otherwise the error is that of the first failing scalar |
| Columnar.MarshalFirstError | src/distribution/array.py:31-32 | the error of the first scalar that does not convert is the error of the whole fill |
| Columnar.Allocate | src/distribution/array.py:30 | a fresh buffer holding the given rows |
| Columnar.WithColumn | src/distribution/accessor.py:31 | replacing one field keeps the row count and every record's width |
| Columnar.WithColumnFrame | src/distribution/accessor.py:31 | writing one field gives that field the new column and leaves every other field as it was |
| Columnar.FieldView.Assign | src/distribution/accessor.py:31 | `view[:] = value` writes the broadcast column into the shared buffer; a bad length raises `ValueError` and changes nothing |
| Columnar.FieldView.Put | src/distribution/accessor.py:29 | `view[positions] = values` writes into the field column of the shared buffer, last write winning, and changes no other field |
| Columnar.OrReduceAt | src/distribution/array.py:90-92 | or-reducing equal-length masks marks a row exactly when some mask marks it |
| Columnar.MissingMask | src/distribution/array.py:90-92 | a row is missing exactly when some field is NaN; a layout without fields raises `TypeError` |
| Columnar.OrReduce | src/distribution/array.py:90-92 | `functools.reduce(operator.or_, masks)` of no masks raises `TypeError`; it succeeds exactly when every two masks' lengths broadcast (equal, or one of them a single entry) and then gives a mask as long as every mask that is not a single entry; otherwise `operator.or_` raises `ValueError`. `isna` only passes masks of the row count, so it never reaches the broadcast or the `ValueError` |
| Columnar.OrMasks | src/distribution/array.py:92 | `operator.or_(a, b)` on two boolean masks: each entry is the or of the matching entries, a single-entry mask broadcast against the other; lengths that do not broadcast raise `ValueError` |
| Columnar.BroadcastStep | src/distribution/array.py:92 | masks that broadcast to a length `n`, plus one more mask, all broadcast exactly when the new mask's length broadcasts with `n` |
| Columnar.CompareRows | src/distribution/array.py:80 | record-wise `==` gives an element-wise mask when the lengths agree or one side has one row, else `ValueError`; with equal lengths, row `i` is true exactly when the two records are equal; with one side of one row, that row is compared with every row of the other side |
| Columnar.CompareSelf | src/distribution/array.py:80 | an array compared with itself is true exactly on the rows without a NaN field |
| Columnar.FlattenLength | src/distribution/array.py:72-73 | the concatenated rows number exactly the parts' rows added up, so `len` of `_concat_same_type`'s result, for either array class, is the sum of the parts' `len` |
| Columnar.FlattenLayout | src/distribution/array.py:99-103 | `np.concatenate` (`Columnar.Flatten`) is as long as all parts together, and part `p` sits after the parts before it, in its own order |
| Columnar.TakeRows | src/distribution/array.py:105-116 | `take` without fill follows numpy indexing (`IndexError` outside `[-n, n)`); with fill, -1 gives the fill row, below -1 raises `ValueError`, and past the end raises `IndexError`, checked in that order |
| Values.Uniform | src/distribution/base.py:41 | the record that stores one value in every field |
| Values.RecordEqSelf | src/distribution/array.py:80 | a record equals itself under float equality exactly when it has no NaN field |
| Dicts.ZipDict | src/distribution/base.py:18-19 | `dict(zip(keys, values))` has exactly the keys of the zipped prefix |
| Dicts.ZipDictAt | src/distribution/base.py:18-19 | with distinct keys, each key maps to the value at its own position |
| Text.TrimLeft | src/distribution/categorical.py:54 | `lstrip` removes exactly the leading whitespace |
| Text.TrimRight | src/distribution/categorical.py:54 | `rstrip` removes exactly the trailing whitespace |
| Text.Split | src/distribution/categorical.py:54 | `split(sep)` gives at least one piece, and no piece holds the separator |
| Text.JoinSplit | src/distribution/categorical.py:54 | joining the pieces of a split with the separator gives back the string |
| Text.StripSurrounded | src/distribution/categorical.py:54 | stripping a word with whitespace on both sides gives back the word |
| Text.StripPadded | src/distribution/categorical.py:54 | stripping a word padded on the left gives back the word |
| BernoulliVariant.LayoutMatchesTuple | src/distribution/bernoulli.py:18-30 | the field list and `to_tuple` agree: building from a one-field record gives back that record, and every scalar is rebuilt from its own tuple |
| BernoulliVariant.ToTuple | src/distribution/bernoulli.py:18-19 | the tuple has one value per field of the layout |
| BernoulliVariant.FromKwargs | src/distribution/bernoulli.py:14-19 | the dataclass constructor succeeds exactly for the keyword `p` (else `TypeError`), and the scalar's tuple holds that value |
| LogNormalVariant.LayoutMatchesTuple | src/distribution/lognorm.py:17-29 | the field list `mu, sigma` and `to_tuple` agree, in both directions |
| LogNormalVariant.ToTuple | src/distribution/lognorm.py:17-18 | the tuple has one value per field of the layout |
| LogNormalVariant.FromKwargs | src/distribution/lognorm.py:12-18 | the dataclass constructor succeeds exactly for the keywords `mu` and `sigma` (else `TypeError`), and the scalar's tuple holds each keyword's value at its field |
| LogNormalVariant.KwargsOfRecord | src/distribution/base.py:35-37 | building from the keywords zipped out of a record gives the scalar with `mu` and `sigma` from that record |
| CategoricalVariant.New | src/distribution/categorical.py:40-44 | the constructor succeeds exactly for identifiers that are not repeated, and keeps the names; otherwise `ValueError` |
| CategoricalVariant.Name | src/distribution/categorical.py:46-48 | the name is `dist[categorical` followed by `, name` for every field, then `]` |
| CategoricalVariant.ConstructFromString | src/distribution/categorical.py:50-56 | `TypeError` exactly when the pattern does not match; otherwise the constructor decides: a dtype with valid names, or `ValueError`. Which words reach the constructor is `ConstructSpelled` |
| CategoricalVariant.SkipSpace | src/distribution/categorical.py:16 | `\s*` stops at the first character that is not whitespace, or at the end |
| CategoricalVariant.SkippedSpaces | src/distribution/categorical.py:16 | every character `\s*` consumes is whitespace |
| CategoricalVariant.SkipWord | src/distribution/categorical.py:16 | `\w+` stops at the first character that is not a word character, or at the end |
| CategoricalVariant.SkippedWord | src/distribution/categorical.py:16 | every character `\w+` consumes is a word character |
| CategoricalVariant.MatchFields | src/distribution/categorical.py:16 | a match starts with `dist[categorical`, captures text right after it as group 1 with at least one character left behind, and the string's last character is `]` or a newline. The full language is `MatchFieldsSpec` |
| CategoricalVariant.Repeats | src/distribution/categorical.py:16 | where `(?:\s*,\s*\w+)*` stops lies between its start and the end of the string; what it passes over is given by `ScanSound` and `RepeatsUnits` |
| CategoricalVariant.RepeatsUnits | src/distribution/categorical.py:16 | a run of units `\s*,\s*\w+` followed by no word character is consumed whole, and the repetition goes on after it |
| CategoricalVariant.ScanSound | src/distribution/categorical.py:16 | what the repetition group consumes is a run of units: whitespace, a comma, whitespace and a non-empty word each |
| CategoricalVariant.ClosesSpec | src/distribution/categorical.py:16 | `\s*\]$` holds at a position exactly when the rest is whitespace, `]`, and then nothing or one final newline |
| CategoricalVariant.SpelledMatches | src/distribution/categorical.py:16 | every string `dist[categorical` + units + whitespace + `]` + an optional newline matches, with the units' text as group 1 |
| CategoricalVariant.MatchedIsSpelled | src/distribution/categorical.py:16 | every match is such a string, with group 1 as its units' text |
| CategoricalVariant.MatchFieldsSpec | src/distribution/categorical.py:16 | the pattern matches with group 1 equal to `g` exactly when the string is `dist[categorical` + units whose text is `g` + whitespace + `]` + an optional newline |
| CategoricalVariant.SplitUnits | src/distribution/categorical.py:54 | a run of units splits at commas into the text before its first comma, then one piece per unit: its whitespace and word, then the whitespace before the next comma |
| CategoricalVariant.UnitsFieldNames | src/distribution/categorical.py:54 | splitting a run of units at commas, dropping the first piece and stripping the rest gives exactly the units' words |
| CategoricalVariant.ConstructSpelled | src/distribution/categorical.py:50-56 | for any string the pattern admits, `construct_from_string` gives the constructor's verdict on the words it spells |
| CategoricalVariant.RepeatsFieldList | src/distribution/categorical.py:16 | the repetition group `(?:\s*,\s*\w+)*` consumes exactly a canonical field list |
| CategoricalVariant.SplitFieldList | src/distribution/categorical.py:54 | a canonical field list splits at commas into an empty piece and then each name behind one space |
| CategoricalVariant.MatchName | src/distribution/categorical.py:16 | the canonical name, alone or followed by one newline, matches the pattern with the field list as group 1 |
| CategoricalVariant.TokensOfFieldList | src/distribution/categorical.py:54 | splitting the field list, dropping the first piece and stripping the rest gives the names back |
| CategoricalVariant.NameRoundTripWith | src/distribution/categorical.py:46-56 | parsing the name, alone or followed by one newline, gives back the dtype |
| CategoricalVariant.NameRoundTrip | src/distribution/categorical.py:46-56 | `construct_from_string(d.name) == d` for every dtype the constructor accepts |
| CategoricalVariant.NameInjective | src/distribution/categorical.py:38-48 | two accepted dtypes have the same name exactly when they have the same field list |
| CategoricalVariant.ParsedIsCanonical | src/distribution/categorical.py:50-56 | any parsed dtype has valid names, and its canonical name parses back to it |
| CategoricalVariant.ParseTwoFields | tests/test_categorical.py:16-17 | `dist[categorical, a, b]` parses to the fields `a` and `b` |
| CategoricalVariant.TwoFieldsName | src/distribution/categorical.py:46-48 | the dtype with fields `a`, `b` is named `dist[categorical, a, b]` |
| CategoricalVariant.ParseNoFields | src/distribution/categorical.py:16 | `dist[categorical]` parses to the dtype without fields |
| CategoricalVariant.RejectOpenBracket | tests/test_categorical.py:61-62 | `dist[categorical, []` does not match the pattern: `TypeError` |
| CategoricalVariant.RejectSpaceInName | tests/test_categorical.py:59-60 | a field name with a space does not match the pattern: `TypeError` |
| CategoricalVariant.RejectDigitFirst | src/distribution/categorical.py:41-43 | a matched word that is not an identifier is refused by the constructor: `ValueError` |
| DistributionBase.Names | src/distribution/base.py:29-31 | the field names of an accepted dtype are distinct |
| DistributionBase.ToTuple | src/distribution/base.py:15-16 | a Bernoulli or log-normal scalar's tuple is as wide as its dtype's layout |
| DistributionBase.CategoricalScalar | src/distribution/categorical.py:24-25 | `to_tuple` gives `theta` as stored: a scalar read from a categorical record (`_get_scalar`) holds that record and the dtype itself, and its tuple is the record unchanged |
| DistributionBase.ToDict | src/distribution/base.py:18-19 | `to_dict` has only field names as keys, and all of them when the tuple is as wide as the layout |
| DistributionBase.ToDictAt | src/distribution/base.py:18-19 | `to_dict` has exactly the field names as keys, and maps each to its own tuple value |
| DistributionBase.GetScalar | src/distribution/base.py:35-37 | reading a record gives a scalar of this dtype whose tuple is that record |
| DistributionBase.RecordFor | src/distribution/base.py:39-43 | `None` stores all NaN; a categorical dtype refuses a scalar of another dtype (`TypeError`); a tuple of the wrong width raises `ValueError`; otherwise the tuple is stored |
| DistributionBase.SetScalar | src/distribution/categorical.py:62-68 | the dtype check first, then the index (`IndexError`), then the conversion; only the addressed row changes, and nothing changes on error |
| DistributionBase.ScalarRoundTrip | src/distribution/base.py:35-43 | storing a scalar of the dtype and reading it back gives the same scalar |
| DistributionBase.RecordRoundTrip | src/distribution/base.py:35-43 | reading a record and storing the scalar back gives the same record |
| DistributionBase.NoneIsMissing | src/distribution/base.py:39-47 | storing `None`, the dtype's `na_value`, gives a missing record for every dtype with a field |
| DistributionBase.DtypeCheckOnlyForCategorical | src/distribution/categorical.py:66-67 | only the categorical dtype refuses a scalar of another dtype; Bernoulli stores any one-field tuple |
| DistributionBase.DtypeName | src/distribution/bernoulli.py:27 | every dtype's `name` has the form `dist[...]`; by `FindByName` and `NameInjective` it leads back to that dtype and to no other |
| DistributionBase.ConstructFixed | src/distribution/bernoulli.py:26-27 | pandas' default `construct_from_string` of a fixed family accepts exactly that family's own name and gives the dtype of that name; anything else raises `TypeError` |
| DistributionBase.FindDtype | src/distribution/__init__.py:5-7 | looking a string up over the registry gives a valid dtype; a fixed family's is named exactly by the string; the only error is the constructor's `ValueError` |
| DistributionBase.FindByName | src/distribution/categorical.py:50-56 | every dtype's name leads back to that dtype |
| DistributionBase.NameInjective | src/distribution/categorical.py:46-48 | dtype names identify dtypes |
| DistributionBase.ShortNamesDoNotMatch | src/distribution/categorical.py:16 | `dist[bernoulli]` and `dist[lognorm]` are not categorical names |
| DistributionBase.CategoricalNameShape | src/distribution/categorical.py:46-48 | no categorical name is a fixed family's name |
| DistributionArrays.DistributionArray.constructor | src/distribution/array.py:17-19 | the array wraps the given buffer and dtype |
| DistributionArrays.DistributionArray.Empty | src/distribution/array.py:21-24 | a fresh zero-filled buffer of the requested length |
| DistributionArrays.DistributionArray.FromSequence | src/distribution/array.py:26-33 | no dtype raises `ValueError`; otherwise the rows are the scalars converted in order, and the first failing scalar decides the error |
| DistributionArrays.DistributionArray.ToScalars | src/distribution/array.py:49-53 | one scalar per row, of the array's dtype, whose tuple is that row |
| DistributionArrays.DistributionArray.Get | src/distribution/array.py:57-59 | an integer index gives the scalar of that row (negatives from the end), else `IndexError` |
| DistributionArrays.DistributionArray.Select | src/distribution/array.py:60-62 | an array or mask indexer gives a new array of the selected rows, in order, else `IndexError` |
| DistributionArrays.DistributionArray.Set | src/distribution/array.py:64-66 | integer assignment through `_set_scalar`: errors in its order, only that row changes |
| DistributionArrays.DistributionArray.SetMany | src/distribution/array.py:67-70 | array or mask assignment with broadcasting and last write winning |
| DistributionArrays.DistributionArray.Equals | src/distribution/array.py:75-80 | `NotImplemented` unless the other is a distribution array of an equal dtype; then record-wise `==` |
| DistributionArrays.DistributionArray.IsNA | src/distribution/array.py:90-92 | a row is missing exactly when some field is NaN; `TypeError` without fields |
| DistributionArrays.DistributionArray.Copy | src/distribution/array.py:94-96 | a new array over a new buffer with the same rows and dtype |
| DistributionArrays.DistributionArray.ConcatSameType | src/distribution/array.py:98-103 | the rows of all arrays in order, under the first dtype; no arrays raise `ValueError` and differing field lists `TypeError` |
| DistributionArrays.DistributionArray.GatherRows | src/distribution/array.py:98-103 | the rows handed to `np.concatenate`: every array's rows, one array after the other, each as wide as the first dtype's layout; `TypeError` exactly when some array's field list differs from the first's |
| DistributionArrays.ConcatNbytes | src/distribution/array.py:86-88 | for a concatenation of arrays of one field list, `len` is the parts' row counts added up, and `nbytes` (eight bytes per field per row) is the sum of the parts' `nbytes` |
| DistributionArrays.DistributionArray.Take | src/distribution/array.py:105-116 | `take` as pandas' ExtensionArray contract describes it: an unspecified fill gives a missing row (all NaN). The code as written passes `None` on to pandas, see "## Left out" |
| DistributionArrays.DistributionArray.ToArrow | src/distribution/array.py:121-126 | one child per field, in layout order, from which `__from_arrow__` reads back the same rows |
| DistributionArrays.DistributionArray.ViewField | src/distribution/array.py:128-132 | a view of the named field over the array's own buffer; an unknown name raises `KeyError` |
| DistributionArrays.FromArrow | src/distribution/base.py:53-62 | the rows decoded from the Arrow data, in a fresh array of the dtype; a missing or ambiguous field raises `KeyError` |
| Interchange.Append | src/distribution/base.py:56-57 | two struct arrays of one type, one after the other: each child column is `a`'s column followed by `b`'s |
| Interchange.Combine | src/distribution/base.py:56-57 | `combine_chunks` keeps the type and its length is the sum of the chunk lengths |
| Interchange.Occurrences | src/distribution/base.py:60 | the positions of a name among the children, in order |
| Interchange.FieldIndex | src/distribution/base.py:60 | `array.field(name)` succeeds exactly when one child carries the name, else `KeyError` |
| Interchange.FieldIndexDistinct | src/distribution/base.py:60 | among distinct names, each name is found at its own position |
| Interchange.Encode | src/distribution/array.py:121-126 | one child column per field, each as long as the array |
| Interchange.Decode | src/distribution/base.py:53-62 | succeeds exactly when every field has one child of its name (`KeyError` otherwise), and then each field of each row comes from that child |
| Interchange.RoundTrip | src/distribution/base.py:53-62 | decoding what `__arrow_array__` wrote gives back the rows |
| Interchange.AppendEncode | src/distribution/base.py:56-57 | encoding two row lists and appending equals encoding them together |
| Interchange.CombineEncoded | src/distribution/base.py:56-57 | combining encoded chunks equals encoding all their rows together |
| Interchange.ChunkedRoundTrip | src/distribution/base.py:53-62 | decoding a chunked table of encoded parts gives all their rows, chunk after chunk |
| Interchange.Load | src/distribution/base.py:53-62 | the buffer the loop over the fields fills is exactly the decoded rows; `KeyError` otherwise |
| Interchange.WriteFields | src/distribution/base.py:58-60 | after writing fields `0..k` from their children, each of them holds its child's column |
| StructuredBase.ConstructFromString | src/structured/base.py:44-48 | only the dtype's own name gives the dtype; anything else raises `TypeError` |
| StructuredBase.RecordFor | src/structured/base.py:64-68 | `None` stores `_na_values` and a value stores itself; a record of the wrong width raises `ValueError` |
| StructuredBase.SetScalar | src/structured/base.py:64-68 | `IndexError` for a bad index, then `ValueError` for a bad record; only that row changes |
| StructuredBase.StructuredArray.constructor | src/structured/base.py:74-77 | the buffer has the dtype's layout |
| StructuredBase.StructuredArray.FromSequence | src/structured/base.py:79-89 | no dtype raises `ValueError`, a non-structured dtype `TypeError`; otherwise the records in order, the first failure deciding the error |
| StructuredBase.StructuredArray.Get | src/structured/base.py:101-103 | an integer index gives the record of that row, else `IndexError` |
| StructuredBase.StructuredArray.Select | src/structured/base.py:104-106 | an array or mask indexer gives a new array of the selected rows |
| StructuredBase.StructuredArray.Set | src/structured/base.py:108-110 | integer assignment through `_set_scalar` |
| StructuredBase.StructuredArray.SetMany | src/structured/base.py:111-114 | array or mask assignment with broadcasting |
| StructuredBase.StructuredArray.Equals | src/structured/base.py:119-124 | `NotImplemented` unless the other is a structured array of an equal dtype; then record-wise `==` |
| StructuredBase.StructuredArray.IsNA | src/structured/base.py:134-136 | a row is missing exactly when some field is NaN; `TypeError` without fields |
| StructuredBase.StructuredArray.Copy | src/structured/base.py:138-140 | a new buffer with the same rows |
| StructuredBase.StructuredArray.ConcatSameType | src/structured/base.py:142-147 | the rows of all arrays in order; `ValueError` for none; `TypeError` exactly when some array's layout (`SameLayout`: its field names and item sizes) differs from the first array's. Refusing differing item sizes is narrower than numpy 1.25, see "## Left out" |
| StructuredBase.ConcatNbytes | src/structured/base.py:130-132 | for a concatenation of arrays of one layout, `len` is the parts' row counts added up, and `nbytes` (record size times rows) is the sum of the parts' `nbytes` |
| StructuredBase.StructuredArray.Take | src/structured/base.py:149-160 | `take` as pandas' ExtensionArray contract describes it: an unspecified fill gives the dtype's missing record. The code as written passes `None` on to pandas, see "## Left out" |
| StructuredBase.StructuredArray.ToArrow | src/structured/base.py:165-168 | one child per field, read back as the same rows |
| StructuredBase.StructuredArray.GetAttr | src/structured/base.py:170-173 | a field name gives a view of that field over the array's buffer; anything else raises `AttributeError` |
| StructuredBase.FromArrow | src/structured/base.py:50-59 | the rows decoded from the Arrow data, in a fresh array of the dtype; a missing or ambiguous field raises `KeyError` |
| Accessor.Position | src/distribution/accessor.py:27 | where a label sits in the index, or -1 when it is absent |
| Accessor.GetIndexer | src/distribution/accessor.py:27 | `get_indexer` gives each label's position, or -1; a non-unique index raises `InvalidIndexError` |
| Accessor.Matched | src/distribution/accessor.py:28-29 | the masked positions and values pair up, and every kept position came from the indexer |
| Accessor.MatchedPairs | src/distribution/accessor.py:28-29 | `indices[mask]` and `values[mask]` for `mask = indices >= 0` are exactly the pairs at the non-negative indices, in increasing order |
| Accessor.LastHit | src/distribution/accessor.py:29 | the last matched pair aimed at a row, with no later pair aimed at it; absent exactly when no pair is aimed at it |
| Accessor.LastLabel | src/distribution/accessor.py:29 | the last occurrence of a label, with no later occurrence; absent exactly when the label is |
| Accessor.ScatterMatched | src/distribution/accessor.py:27-29 | after the masked write, a row holds the value of the last pair aimed at it, or its old value |
| Accessor.LastHitIsLastLabel | src/distribution/accessor.py:27-29 | the last pair aimed at a row is the last occurrence of that row's label |
| Accessor.AlignedColumn | src/distribution/accessor.py:26-29 | every row whose label occurs takes the value at its label's last occurrence; other rows keep theirs |
| Accessor.AlignedAll | src/distribution/accessor.py:26-29 | the masked scatter gives exactly the label-aligned column |
| Accessor.DistributionSeriesAccessor.constructor | src/distribution/accessor.py:12-18 | the accessor holds the Series' index and its array |
| Accessor.DistributionSeriesAccessor.Attach | src/distribution/accessor.py:12-18 | only a Series of distributions gets the accessor; anything else raises `AttributeError` |
| Accessor.DistributionSeriesAccessor.GetItem | src/distribution/accessor.py:20-22 | the field's view over the array's buffer, under the Series' index; an unknown field raises `KeyError` |
| Accessor.DistributionSeriesAccessor.SetItem | src/distribution/accessor.py:24-31 | an unknown field raises `KeyError`; a scalar fills the field; a sequence must have one value per row or a single value (`ValueError` otherwise); a Series is aligned by label (`InvalidIndexError` for a non-unique index). Only that field changes, and nothing changes on error |
| Accessor.DistributionSeriesAccessor.Unpack | src/distribution/accessor.py:33-37 | one column per field, in field order, holding that field of every row |
| Scenarios.MissingSeries | tests/test_lognorm.py:14 | `pd.Series(index=range(n), dtype=d)` gives `n` all-NaN records |
| Scenarios.LogNormalFromName | tests/test_lognorm.py:13-17 | setting `mu` from a list and `sigma` from a scalar gives `LogNormal(3.0, 0.1)` at row 2 |
| Scenarios.FillLogNormal | tests/test_lognorm.py:15-16 | after both writes, row 2 holds `(3.0, 0.1)` |
| Scenarios.FindLogNormalByName | tests/test_lognorm.py:14 | `dist[lognorm]` resolves to the log-normal dtype |
| Scenarios.LogNormalThroughViews | tests/test_lognorm.py:20-26 | writing through the field views of an empty array gives `LogNormal(8.0, 2.0)` at row 8 |
| Scenarios.FillThroughViews | tests/test_lognorm.py:22-24 | after both view writes, row 8 holds `(8.0, 2.0)` |
| Scenarios.WriteRow8 | src/distribution/array.py:128-132 | a write through a field view changes that field of the array's own row |
| Scenarios.CategoricalFromName | tests/test_categorical.py:16-20 | the series named `dist[categorical, a, b]` gives `{"a": 0.9, "b": 0.1}` for row 2 |
| Scenarios.FillCategorical | tests/test_categorical.py:18-19 | after both writes, row 2 holds `(0.9, 0.1)` |
| Scenarios.FindCategoricalByName | tests/test_categorical.py:17 | `dist[categorical, a, b]` resolves to the dtype with fields `a` and `b` |
| Scenarios.TwoFieldDict | src/distribution/base.py:18-19 | `to_dict` of a two-field categorical scalar |
| Scenarios.StructuredAllMissing | tests/test_base.py:9-19 | a Series of the `foo` structured dtype without values is missing in every row |
| Scenarios.TakeFill | src/distribution/array.py:112-114 | `take([-1], allow_fill=True)` gives one missing row under the contract model of `take` |
| Scenarios.ConcatTwo | src/distribution/array.py:98-103 | three rows and two rows concatenate to five, in order |
| Scenarios.ArrowRoundTrip | tests/test_lognorm.py:40-49 | writing an array to Arrow and reading it back gives the same dtype and rows |

## Left out

- `to_scipy`, `_to_scipy` and everything built on scipy are left out, because they call a foreign numerical library. This includes the commented-out `sample`.
- The pyarrow library itself is left out. A struct array is modelled as named child columns. pyarrow's own refusal of a struct array without children is not modelled.
- The Series arithmetic in `tests/test_categorical.py` (`test_from_dtype`) is left out: it is float arithmetic done by pandas on the field columns.
- Parquet files are left out; only the Arrow conversion that backs them is modelled.
- pandas plumbing is left out, because it only wires the classes into pandas. This covers:
  - `register_extension_dtype` and `register_series_accessor`; the registration order is the lookup order of `DistributionBase.FindDtype`;
  - `construct_array_type` and the `dtype` properties;
  - `_from_factorized` and `_values_for_factorize` / `_values_for_argsort`;
  - `__dir__`.
- `check_array_indexer` is modelled only for integer arrays and boolean masks. Slices, which numpy answers with a view, are not modelled.
- DistributionArrays.DistributionArray.Take: the filled row is modelled as pandas' ExtensionArray contract for `take` describes it: a missing row, all NaN. This is not what the code produces as written. `fill_value = self.dtype.na_value` (src/distribution/array.py:112-113) sets the fill to `None` again, since `na_value` is `None` (src/distribution/base.py:45-47). pandas' `take` then has to fill a record buffer with `None`, and its type promotion for that case is not modelled. As far as can be told without running it, the result is an object buffer, not a record buffer, and the array built around it cannot be indexed by field.
- StructuredBase.StructuredArray.Take: likewise. The filled row is modelled as the dtype's `_na_values` record, but the code passes `na_value = None` (src/structured/base.py:32 and 156-157) to pandas' `take`. The buffer that comes back would then fail the layout assertion of `StructuredArray.__init__` (src/structured/base.py:74); pandas' promotion is not modelled.
- Field types are not modelled: every field holds a float or NaN. The `i4` field of the `foo` test dtype is therefore a float here, and numpy's casting on assignment is not modelled.
- Text.IsIdentifier: `str.isidentifier`, `\w` and `\s` are modelled on ASCII letters, digits and underscore, plus ASCII and Latin-1 whitespace. Unicode identifiers and whitespace are not modelled.
- Columnar.AssignRows: the assigned value of an array or mask assignment is one record or a sequence of records. numpy's conversion of other objects (tuples of tuples, other arrays) is not modelled.
- Columnar.AssignRows: the order in which numpy reports a bad indexer and a bad value together is taken as indexer first.
- DistributionArrays.DistributionArray.Empty: `np.zeros` is modelled as all-zero records. The initial contents of `np.empty` in `__from_arrow__` are irrelevant, since every field is overwritten, and are modelled as NaN.
- Accessor.DistributionSeriesAccessor.GetItem: the result is modelled as the field view with the Series' index and name. The pandas Series object built around it is not modelled.
- Accessor.DistributionSeriesAccessor.Unpack: it returns the field columns in order. The pandas DataFrame built from them is not modelled.
- DistributionArrays.DistributionArray.Equals: dtype equality is structural equality of the modelled dtype. That is pandas' `_metadata` comparison for the categorical dtype, and type equality with an empty `_metadata` for the fixed families.
- StructuredBase.StructuredArray.ConcatSameType: arrays whose field names agree but whose item sizes differ are refused with `TypeError`. From numpy 1.23 on, `np.concatenate` promotes such layouts field by field instead. The item sizes alone do not determine the promoted type, since field types are not modelled. The promoted buffer is then either accepted under the first dtype or refused with `AssertionError` by the layout check of `StructuredArray.__init__` (src/structured/base.py:75). For example, names `a, b` with item sizes `8, 8` and then `4, 8` promote to the first layout, and the same parts the other way round fail the assertion. The model does not capture this case.
- StructuredBase.StructuredArray.Nbytes: the byte widths of the fields are inputs of the dtype, not derived from numpy type codes.
- StructuredBase.StructuredArray.Get: the dtype's scalar type is taken as the identity on records, so `_get_scalar` returns the record itself. A structured dtype whose `type` builds another object from the record is not modelled.

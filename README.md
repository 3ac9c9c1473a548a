# Influx line protocol to Prometheus series, in Dafny

This project models the translation core of grpc-cortex-gw, a gateway that
accepts metric writes in the Influx line protocol, converts them into
Prometheus remote-write time series and forwards them to a Cortex backend.
It covers the part of `influx.go` that turns parsed Influx points into
series:

- the `precision` query parameter handling of `parseInfluxLineReader`. An
  empty value defaults to `ns`, and a precision the parser does not know is
  rejected before the body is read;
- `writeRequestFromInfluxPoints`, which concatenates the series of every
  point or returns the first point's error;
- `influxPointToTimeseries`, which makes one series per field whose value is
  a float, an integer or a bool. The series is named after the measurement
  (and the field, unless the field is `value`), carries the point's tags as
  labels (a tag whose raw key is `__name__` is dropped), is sorted by label
  name and holds one sample: the point time in milliseconds and the value;
- `replaceInvalidChars`, the sanitiser applied to metric names and tag keys.

Go strings are byte strings: `GoStrings.Bytes` is a sequence of characters
below 256. Names, label values, precisions and error texts are all `Bytes`.
Go's string `<` is the byte-wise order `GoStrings.Less`.
`sanitize.dfy` models the `range` loop exactly as Go runs it. It decodes
UTF-8 runes with Go's acceptance table (`Utf8.DecodeRune`). It visits the
offset of each rune (`Utf8.RangeOffsets`). It rewrites one byte at that
offset when the rune is not in `[A-Za-z0-9_]`.

`replaceInvalidChars`, `influxPointToTimeseries`, the label loop,
`sort.Slice` and `writeRequestFromInfluxPoints` work step by step. They are
methods with loops, proved against ghost specifications:
`Sanitize.Sanitized`, `PointConversion.IsSeriesFor` and `ConvertedPoint`,
`LabelSort.SortedByName` plus a multiset permutation, and
`BatchConversion.ConvertedBatch`. `sort.Slice` is modelled as an in-place
insertion sort on an array. Its contract is only what `sort.Slice`
promises: sorted, and a permutation.

## Model

| member | source | states |
|---|---|---|
| Utf8.DecodeRune | influx.go:185 | The rune that `range` decodes at a byte offset: an ASCII byte is itself, with width 1. The width is 1 to 4 and stays inside the string. A non-ASCII lead byte gives a code point from 0x80 to 0x10FFFF. A non-ASCII rune of width 1 is always U+FFFD (`RuneError`), and a byte that cannot start a sequence (80-C1, F5-FF) always decodes as U+FFFD with width 1. |
| Utf8.RangeOffsets | influx.go:185 | The offsets the `range` loop visits from offset `i`: the first is `i` itself, and all lie between `i` and the end of the string. |
| Utf8.AsciiVisitsEveryOffset | influx.go:185 | Over an ASCII string, the loop visits every byte offset. |
| Sanitize.ReplaceInvalidChars | influx.go:184-199 | The loop and the digit prefix leave exactly `Sanitized(s)` in the string. |
| Sanitize.Sanitized | influx.go:184-199 | The result is one byte longer than the input exactly when the input starts with a digit. Its first byte is in `[A-Za-z0-9_]` and is never a digit. |
| Sanitize.AfterLoopAt | influx.go:185-194 | After the loop, byte `k` is `_` when `k` is a rune offset whose rune is outside `[A-Za-z0-9_]`. Every other byte is unchanged. |
| Sanitize.SanitizedAscii | influx.go:184-199 | For an ASCII name: each byte is kept when it is in `[A-Za-z0-9_]` and becomes `_` otherwise. One `_` is prefixed exactly when the name starts with a digit. The result is a valid Prometheus label name. |
| Sanitize.SanitizedFixedPoints | influx.go:184-199 | Sanitising leaves a string unchanged exactly when it already is a valid label name (both directions). |
| Sanitize.SanitizeIdempotent | influx.go:184-199 | Sanitising an ASCII name a second time changes nothing. |
| Sanitize.SanitizedDotKey | influx.go:184-199 | The key `__name._` sanitises to `__name__`. |
| Sanitize.MultiByteRuneKeepsContinuationByte | influx.go:185-193 | Only the lead byte of a multi-byte rune is replaced. `é` (bytes C3 A9) becomes `_` followed by A9, which is not a label name, and sanitising that again gives `__`. |
| GoStrings.Less | influx.go:168 | Go's `<` on strings: a string is never less than itself, and a proper prefix is less than the longer string. |
| GoStrings.LessIrreflexive | influx.go:168 | No name sorts before itself. |
| GoStrings.LessTransitive | influx.go:168 | The name order of the sort is transitive. |
| GoStrings.LessAsymmetric | influx.go:168 | Of two names, at most one sorts before the other. |
| GoStrings.LessTotal | influx.go:168 | Of two different names, one sorts before the other. |
| GoStrings.NotLessTransitive | influx.go:168 | "Not less than" is transitive, which is what makes the adjacent-pairs sortedness check imply order between any two positions. |
| LabelSort.SortByName | influx.go:167-169 | Afterwards the array is sorted by name (no label's name is less than its predecessor's) and holds the same labels (multiset). |
| LabelSort.SortSlice | influx.go:167-169 | `sort.Slice` on the label slice returns a by-name sorted permutation of its input. |
| LabelSort.SortedByNamePairwise | influx.go:167-169 | In a slice sorted by adjacent pairs, no later label's name is less than any earlier one's. |
| PointConversion.TimeToMillis | influx.go:174 | Nanoseconds to milliseconds, truncating toward zero: for a non-negative time the result is the largest whole millisecond not after it, for a negative time the smallest not before it. |
| PointConversion.Coerce | influx.go:128-142 | The type switch: a field yields no value exactly when it is neither float, int nor bool. A float keeps its bit pattern unchanged. An int is widened to the same integer. A bool gives the float64 1 when true and 0 when false. |
| PointConversion.MetricName | influx.go:144-147 | The metric name is the measurement for the field `value`, and `measurement_field` for every other field. |
| PointConversion.MetricNameInjective | influx.go:144-147 | Before sanitising, two fields of one point get the same metric name exactly when they are the same field. |
| PointConversion.PointToTimeSeries | influx.go:120-181 | If the point's fields cannot be read, the result is the error with the prefix `error getting fields from point: `. Otherwise there is one series per float, int or bool field, in field order. Each series' labels are a by-name sorted permutation of `__name__` (with the sanitised metric name) and the sanitised kept tags. Its single sample is at the point time in milliseconds with the coerced value. |
| PointConversion.LabelsFor | influx.go:150-169 | The label list is sorted by name and holds exactly the `__name__` label and one label per tag whose raw key is not `__name__` (sanitised key, raw value). |
| PointConversion.TagLabelsMembers | influx.go:156-166 | A label comes from the tag loop exactly when some tag whose raw key is not `__name__` becomes it (both directions). |
| PointConversion.SeriesLabels | influx.go:144-169 | A series has 1 + (number of kept tags) labels. It contains the `__name__` label and every kept tag's label, and nothing else. It is ordered by name between any two positions. |
| PointConversion.NumericFieldsMembers | influx.go:127-142 | A field yields a series exactly when its value is a float, an int or a bool. Other types are skipped. |
| PointConversion.ConvertedPointFields | influx.go:127-178 | Every float, int or bool field of a point has its series among the point's series, and every series is the series of some field. |
| PointConversion.SeriesLabelNamesValid | influx.go:148-166 | With an ASCII metric name and ASCII tag keys, every label name of a series is a valid Prometheus label name. |
| PointConversion.TemperatureExample | influx.go:120-181 | `temperature,host=a value=72.5` at 10^18 ns converts to one series, labels `__name__="temperature"` then `host="a"`, with one sample of 72.5 at 10^12 ms. |
| PointConversion.RawNameTagDropped | influx.go:156-160 | `cpu,__name__=foo usage=1` converts to one series whose only label is `__name__="cpu_usage"`. |
| PointConversion.SanitizedNameTagKept | influx.go:156-161 | `cpu,__name._=x usage=1` converts to one series with two labels named `__name__`, one for `cpu_usage` and one for `x`. |
| BatchConversion.FirstFailure | influx.go:108-113 | There is no batch error exactly when every point's fields can be read. |
| BatchConversion.FirstFailureAt | influx.go:108-112 | When all points before `i` are readable and point `i` is not, point `i`'s error is the batch's. |
| BatchConversion.WriteRequestFromPoints | influx.go:100-117 | The result is an error exactly when some point's fields cannot be read, and then it is the first such point's error. Otherwise it is the concatenation, in point order, of each point's series. |
| BatchConversion.ConvertedBatchAppend | influx.go:108-114 | Appending one point's series to a batch's series gives the series of the batch extended by that point. |
| BatchConversion.ConvertedBatchCount | influx.go:100-117 | A converted batch holds as many series as its points have float, int and bool fields in total. |
| BatchConversion.ConvertedBatchSound | influx.go:100-117 | Every series of a converted batch is the series of one field of one of its points. |
| LineRequest.EffectivePrecision | influx.go:73-77 | The precision used is never empty: it is the query value when one is given, and `ns` when the value is empty. |
| LineRequest.ResolvePrecision | influx.go:73-80 | A request goes on exactly when the parser knows the effective precision. It goes on with that precision, and otherwise fails with `precision supplied is not valid: ` followed by the precision. |
| LineRequest.StandardPrecisionAccepted | influx.go:73-80 | With the line protocol's precisions `ns`, `us`, `ms` and `s`, a request is accepted exactly when it names one of them or none, and none means `ns`. |
| LineRequest.ExplicitDefaultPrecision | influx.go:73-80 | A request that names `ns` is resolved exactly as one that names no precision. |
| LineRequest.HourPrecisionRejected | influx.go:79-80 | The precision `h` is rejected with the message `precision supplied is not valid: h`. |
| LineRequest.ParseInfluxLineReader | influx.go:71-98 | An invalid precision yields its error whatever the body and the parser do. Then a body read error is returned, then a parse error. Otherwise the result is the batch conversion of the parsed points, with the error and series that `WriteRequestFromPoints` promises. |

## Left out

- `HandlerForInfluxLine` (influx.go:24-68): it marshals to protobuf, compresses with snappy and forwards over HTTP. This is I/O and encoding done by libraries.
- `batchReadCloser` and `ioutil.ReadAll` (influx.go:82-91): the body arrives as the outcome of the read, a parameter of `ParseInfluxLineReader`.
- `models.ParsePointsWithPrecision` (influx.go:92): the line-protocol parser is an external library. It is a function parameter. The default timestamp it takes from `time.Now()` is part of it.
- `models.ValidPrecision` (influx.go:78): external, so it is a predicate parameter. `StandardPrecision` is `ns`, `us`, `ms` and `s`, the line protocol's precisions.
- `pt.Fields()`: the field map or its error is given as `FieldsOutcome`. The wrapped error is its reason text after the prefix.
- proxy.go and main.go are not part of this model: they hold the RPC bridge, tenancy and startup.
- float64: a sample value is the bit pattern of a float field, or the integer of an int field (`Widened`). The rounding of `float64(int64)` is not modelled. Bools give the bit patterns of 1.0 and 0.0.
- int64: point times are unbounded integers of nanoseconds. The overflow range of `UnixNano` is not modelled.
- Go map order: a point's fields are a sequence in whatever order the map iteration yields. Every statement holds for every such order.
- `sort.Slice` is not stable. The model promises only sortedness and a permutation, so the relative order of labels with equal names is left open.
- PointConversion.PointToTimeSeries: requires non-empty metric names and non-empty kept tag keys (`Convertible`). `replaceInvalidChars` indexes the first byte and would panic on an empty string. The line-protocol parser never produces empty measurements or keys.
- Sanitize.SanitizeIdempotent: stated for ASCII names only. As written, the loop replaces just the lead byte of a multi-byte rune, so sanitising is not idempotent outside ASCII (see `MultiByteRuneKeepsContinuationByte`).
- PointConversion.SeriesLabelNamesValid: stated for ASCII names only, for the same reason. A sanitised non-ASCII name can keep continuation bytes.
- Prometheus expects one `__name__` label per series. The code drops only tags whose raw key is `__name__` and sanitises the others afterwards. A key such as `__name._` therefore adds a second `__name__` label. The model follows the code (`SanitizedNameTagKept`).
- `replaceInvalidChars` rewrites one byte per rune offset, not every byte of a multi-byte rune. The model follows the code.

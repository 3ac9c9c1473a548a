/**
 * `influxPointToTimeseries`: one Prometheus series per field of a point whose
 * value is a float, an integer or a bool.
 */
module PointConversion {
  import opened Wrappers
  import opened GoStrings
  import opened Sanitize
  import opened InfluxModels
  import opened Prompb
  import opened LabelSort

  /** `labels.MetricName`. */
  const MetricNameLabel: Bytes := "__name__"
  const ValueField: Bytes := "value"
  const FieldsErrorPrefix: Bytes := "error getting fields from point: "
  const NanosPerMilli := 1_000_000

  /** `util.TimeToMillis`: nanoseconds to milliseconds; Go's `/` truncates toward zero. */
  function TimeToMillis(ns: int): (ms: int)
    ensures ns >= 0 ==> 0 <= ms && ms * NanosPerMilli <= ns < ms * NanosPerMilli + NanosPerMilli
    ensures ns < 0 ==> ms <= 0 && ms * NanosPerMilli - NanosPerMilli < ns <= ms * NanosPerMilli
  {
    if ns >= 0 then ns / NanosPerMilli else -((-ns) / NanosPerMilli)
  }

  /** The type switch: the float64 a field contributes, or `None` for a type that falls to `default`. */
  function Coerce(v: FieldValue): (r: Option<SampleValue>)
    ensures r.None? <==> v.Other?
    ensures (r.Some? && r.value.Widened?) <==> v.Int?
    ensures v.Float? ==> r == Some(FloatBits(v.bits))
    ensures v.Int? ==> r == Some(Widened(v.n))
    ensures v.Bool? ==> r == Some(FloatBits(if v.b then One else Zero))
  {
    match v
    case Float(bits) => Some(FloatBits(bits))
    case Int(n) => Some(Widened(n))
    case Bool(b) => Some(FloatBits(if b then One else Zero))
    case Other => None
  }

  /** The metric name before sanitising: the measurement for a field named `value`, else `measurement_field`. */
  function MetricName(measurement: Bytes, field: Bytes): (r: Bytes)
    ensures field == ValueField ==> r == measurement
    ensures field != ValueField ==> r == measurement + "_" + field
  {
    if field == ValueField then measurement else measurement + "_" + field
  }

  /**
   * Before sanitising, different fields of one point get different metric
   * names: the name for `value` is the bare measurement, and every other
   * field's name is the measurement, `_` and the field key. Sanitising can
   * merge them again (`a.b` and `a_b` both end in `a_b`).
   */
  lemma MetricNameInjective(measurement: Bytes, f1: Bytes, f2: Bytes)
    ensures MetricName(measurement, f1) == MetricName(measurement, f2) <==> f1 == f2
  {
    var k := |measurement| + 1;
    if f1 != ValueField {
      assert MetricName(measurement, f1)[k..] == f1;
    }
    if f2 != ValueField {
      assert MetricName(measurement, f2)[k..] == f2;
    }
  }

  /** The fields that yield a series, in iteration order. */
  function NumericFields(fs: seq<Field>): (r: seq<Field>)
    ensures |r| <= |fs|
  {
    if fs == [] then []
    else
      var f := fs[|fs| - 1];
      NumericFields(fs[..|fs| - 1]) + (if Coerce(f.value).Some? then [f] else [])
  }

  /** The tags the label loop keeps: those whose raw key is not `__name__`. */
  function KeptTags(tags: seq<Tag>): (r: seq<Tag>)
    ensures |r| <= |tags|
  {
    if tags == [] then []
    else
      var t := tags[|tags| - 1];
      KeptTags(tags[..|tags| - 1]) + (if t.key != MetricNameLabel then [t] else [])
  }

  /** The tag keys the label loop sanitises are non-empty (`replaceInvalidChars` indexes `(*in)[0]`). */
  predicate TagKeysSanitizable(tags: seq<Tag>) {
    forall k :: 0 <= k < |tags| && tags[k].key != MetricNameLabel ==> |tags[k].key| > 0
  }

  /** The label a kept tag becomes: sanitised key, raw value. */
  ghost function TagLabel(t: Tag): Label
    requires |t.key| > 0
  {
    Label(Sanitized(t.key), t.value)
  }

  /** The labels the tag loop appends, in tag order. */
  ghost function TagLabels(tags: seq<Tag>): (r: seq<Label>)
    requires TagKeysSanitizable(tags)
    ensures |r| == |KeptTags(tags)|
  {
    if tags == [] then []
    else
      var t := tags[|tags| - 1];
      TagLabels(tags[..|tags| - 1]) + (if t.key != MetricNameLabel then [TagLabel(t)] else [])
  }

  /**
   * What converting `pt` demands so that no sanitiser call indexes an empty
   * string: for each field that yields a series, its metric name and every
   * kept tag key are non-empty. The line-protocol parser guarantees this.
   */
  predicate Convertible(pt: Point) {
    pt.fields.Parsed? ==>
      forall j :: 0 <= j < |pt.fields.fields| && Coerce(pt.fields.fields[j].value).Some? ==>
        |MetricName(pt.name, pt.fields.fields[j].key)| > 0 && TagKeysSanitizable(pt.tags)
  }

  /** The label list before sorting: `__name__` first, then one label per kept tag, in tag order. */
  ghost function UnsortedLabels(pt: Point, f: Field): seq<Label>
    requires |MetricName(pt.name, f.key)| > 0 && TagKeysSanitizable(pt.tags)
  {
    [Label(MetricNameLabel, Sanitized(MetricName(pt.name, f.key)))] + TagLabels(pt.tags)
  }

  /**
   * `ts` is the series the source emits for field `f` of `pt`: its labels are
   * the unsorted labels in some by-name sorted order, and it holds the one
   * sample (point time in milliseconds, coerced value).
   */
  ghost predicate IsSeriesFor(pt: Point, f: Field, ts: TimeSeries) {
    && Coerce(f.value).Some?
    && |MetricName(pt.name, f.key)| > 0
    && TagKeysSanitizable(pt.tags)
    && ts.samples == [Sample(TimeToMillis(pt.time), Coerce(f.value).value)]
    && SortedByName(ts.labels)
    && multiset(ts.labels) == multiset(UnsortedLabels(pt, f))
  }

  /** `tss` holds, in iteration order, one series per field that yields one. */
  ghost predicate ConvertedPoint(pt: Point, tss: seq<TimeSeries>) {
    && pt.fields.Parsed?
    && var numeric := NumericFields(pt.fields.fields);
    && |tss| == |numeric|
    && forall j :: 0 <= j < |tss| ==> IsSeriesFor(pt, numeric[j], tss[j])
  }

  /** `tss` holds, in order, one series per field of `fs` that yields one. */
  ghost predicate SeriesOfFields(pt: Point, fs: seq<Field>, tss: seq<TimeSeries>) {
    && |tss| == |NumericFields(fs)|
    && forall j :: 0 <= j < |tss| ==> IsSeriesFor(pt, NumericFields(fs)[j], tss[j])
  }

  /** One pass of the field loop over a field whose type is skipped: no series. */
  lemma SeriesOfFieldsSkip(pt: Point, fs: seq<Field>, i: nat, tss: seq<TimeSeries>)
    requires i < |fs| && SeriesOfFields(pt, fs[..i], tss) && Coerce(fs[i].value).None?
    ensures SeriesOfFields(pt, fs[..i + 1], tss)
  {
    hide IsSeriesFor;
    assert fs[..i + 1][..i] == fs[..i];
    assert NumericFields(fs[..i + 1]) == NumericFields(fs[..i]);
  }

  /** One pass of the field loop over a field that yields a series: that series is appended. */
  lemma SeriesOfFieldsKeep(pt: Point, fs: seq<Field>, i: nat, tss: seq<TimeSeries>, ts: TimeSeries)
    requires i < |fs| && SeriesOfFields(pt, fs[..i], tss) && IsSeriesFor(pt, fs[i], ts)
    ensures SeriesOfFields(pt, fs[..i + 1], tss + [ts])
  {
    assert Coerce(fs[i].value).Some?;
    hide IsSeriesFor;
    assert fs[..i + 1][..i] == fs[..i];
    assert NumericFields(fs[..i + 1]) == NumericFields(fs[..i]) + [fs[i]];
  }

  /** `influxPointToTimeseries(pt)`. */
  method PointToTimeSeries(pt: Point) returns (res: Result<seq<TimeSeries>, Bytes>)
    requires Convertible(pt)
    ensures pt.fields.Unparsable? ==> res == Err(FieldsErrorPrefix + pt.fields.reason)
    ensures pt.fields.Parsed? ==> res.Ok? && ConvertedPoint(pt, res.value)
  {
    if pt.fields.Unparsable? {
      return Err(FieldsErrorPrefix + pt.fields.reason);
    }
    var fields := pt.fields.fields;
    var returnTs: seq<TimeSeries> := [];
    assert SeriesOfFields(pt, fields[..0], returnTs);
    hide Sanitized, TagLabels, SortedByName, TimeToMillis, SeriesOfFields, NumericFields;
    for i := 0 to |fields|
      invariant SeriesOfFields(pt, fields[..i], returnTs)
    {
      var field := fields[i];
      var value: SampleValue;
      match field.value {
        case Float(bits) => value := FloatBits(bits);
        case Int(n) => value := Widened(n);
        case Bool(b) => value := if b then FloatBits(One) else FloatBits(Zero);
        case Other =>
          SeriesOfFieldsSkip(pt, fields, i, returnTs);
          continue;
      }
      var name := pt.name + "_" + field.key;
      if field.key == ValueField {
        name := pt.name;
      }
      name := ReplaceInvalidChars(name);
      var lbls := LabelsFor(name, pt.tags);
      var ts := TimeSeries(lbls, [Sample(TimeToMillis(pt.time), value)]);
      assert IsSeriesFor(pt, field, ts);
      SeriesOfFieldsKeep(pt, fields, i, returnTs, ts);
      returnTs := returnTs + [ts];
      assert SeriesOfFields(pt, fields[..i + 1], returnTs);
    }
    assert fields[..|fields|] == fields;
    SeriesOfFieldsConverted(pt, returnTs);
    return Ok(returnTs);
  }

  /** Series for all of a readable point's fields are its conversion. */
  lemma SeriesOfFieldsConverted(pt: Point, tss: seq<TimeSeries>)
    requires pt.fields.Parsed? && SeriesOfFields(pt, pt.fields.fields, tss)
    ensures ConvertedPoint(pt, tss)
  {
  }

  /**
   * The label part of the loop body: `__name__` with the sanitised metric
   * name, one label per kept tag, then `sort.Slice` by name.
   */
  method LabelsFor(name: Bytes, tags: seq<Tag>) returns (lbls: seq<Label>)
    requires TagKeysSanitizable(tags)
    ensures SortedByName(lbls)
    ensures multiset(lbls) == multiset([Label(MetricNameLabel, name)] + TagLabels(tags))
  {
    hide Sanitized, SortedByName;
    lbls := [Label(MetricNameLabel, name)];
    for j := 0 to |tags|
      invariant lbls == [Label(MetricNameLabel, name)] + TagLabels(tags[..j])
    {
      var tag := tags[j];
      assert tags[..j + 1][..j] == tags[..j];
      var key := tag.key;
      if key == MetricNameLabel {
        continue;
      }
      key := ReplaceInvalidChars(key);
      lbls := lbls + [Label(key, tag.value)];
    }
    assert tags[..|tags|] == tags;
    lbls := SortSlice(lbls);
  }

  /** A label comes from the tag loop exactly when some kept tag becomes it. */
  lemma {:induction false} TagLabelsMembers(tags: seq<Tag>, l: Label)
    requires TagKeysSanitizable(tags)
    ensures l in TagLabels(tags) <==>
      exists k :: 0 <= k < |tags| && tags[k].key != MetricNameLabel && l == TagLabel(tags[k])
  {
    hide Sanitized, TagLabel, KeptTags;
    if tags != [] {
      var n := |tags| - 1;
      var init := tags[..n];
      assert forall k :: 0 <= k < n ==> init[k] == tags[k];
      assert TagKeysSanitizable(init);
      TagLabelsMembers(init, l);
      var last := if tags[n].key != MetricNameLabel then [TagLabel(tags[n])] else [];
      assert TagLabels(tags) == TagLabels(init) + last;
      if l in TagLabels(tags) {
        if l in TagLabels(init) {
          var k :| 0 <= k < n && init[k].key != MetricNameLabel && l == TagLabel(init[k]);
          assert tags[k] == init[k];
        } else {
          assert l in last;
          assert tags[n].key != MetricNameLabel && l == TagLabel(tags[n]);
        }
      }
      if exists k :: 0 <= k < |tags| && tags[k].key != MetricNameLabel && l == TagLabel(tags[k]) {
        var k :| 0 <= k < |tags| && tags[k].key != MetricNameLabel && l == TagLabel(tags[k]);
        if k < n {
          assert init[k] == tags[k];
          assert l in TagLabels(init);
        } else {
          assert l in last;
        }
      }
    }
  }

  /**
   * The labels of a series for field `f`: one `__name__` label holding the
   * sanitised metric name, one label per tag whose raw key is not
   * `__name__` (sanitised key, raw value), nothing else, so 1 + that many
   * labels; ordered by name between any two positions.
   */
  lemma SeriesLabels(pt: Point, f: Field, ts: TimeSeries)
    requires IsSeriesFor(pt, f, ts)
    ensures |ts.labels| == 1 + |KeptTags(pt.tags)|
    ensures Label(MetricNameLabel, Sanitized(MetricName(pt.name, f.key))) in ts.labels
    ensures forall k :: 0 <= k < |pt.tags| && pt.tags[k].key != MetricNameLabel ==> TagLabel(pt.tags[k]) in ts.labels
    ensures forall l :: l in ts.labels ==>
      || l == Label(MetricNameLabel, Sanitized(MetricName(pt.name, f.key)))
      || exists k :: 0 <= k < |pt.tags| && pt.tags[k].key != MetricNameLabel && l == TagLabel(pt.tags[k])
    ensures forall p, q :: 0 <= p < q < |ts.labels| ==> !Less(ts.labels[q].name, ts.labels[p].name)
  {
    var unsorted := UnsortedLabels(pt, f);
    assert |ts.labels| == |multiset(ts.labels)| == |multiset(unsorted)| == |unsorted|;
    assert forall l :: l in ts.labels <==> l in unsorted by {
      forall l ensures l in ts.labels <==> l in unsorted {
        assert l in ts.labels <==> l in multiset(ts.labels);
        assert l in unsorted <==> l in multiset(unsorted);
      }
    }
    forall l
      ensures l in unsorted <==>
        || l == Label(MetricNameLabel, Sanitized(MetricName(pt.name, f.key)))
        || exists k :: 0 <= k < |pt.tags| && pt.tags[k].key != MetricNameLabel && l == TagLabel(pt.tags[k])
    {
      TagLabelsMembers(pt.tags, l);
    }
    SortedByNamePairwise(ts.labels);
  }

  /** A field that yields a series stands in `NumericFields`, and only such fields do. */
  lemma {:induction false} NumericFieldsMembers(fs: seq<Field>, f: Field)
    ensures f in NumericFields(fs) <==> f in fs && Coerce(f.value).Some?
  {
    if fs != [] {
      var init := fs[..|fs| - 1];
      NumericFieldsMembers(init, f);
      assert fs == init + [fs[|fs| - 1]];
    }
  }

  /**
   * Per field: every field whose value is a float, an int or a bool has a
   * series among the point's series, and every series is the series of such
   * a field; fields of any other type yield none.
   */
  lemma ConvertedPointFields(pt: Point, tss: seq<TimeSeries>)
    requires ConvertedPoint(pt, tss)
    ensures forall j :: 0 <= j < |pt.fields.fields| && Coerce(pt.fields.fields[j].value).Some? ==>
      exists m :: 0 <= m < |tss| && IsSeriesFor(pt, pt.fields.fields[j], tss[m])
    ensures forall m :: 0 <= m < |tss| ==>
      exists j :: 0 <= j < |pt.fields.fields| && IsSeriesFor(pt, pt.fields.fields[j], tss[m])
  {
    hide Sanitized, SortedByName, TimeToMillis, TagLabels, KeptTags;
    var numeric := NumericFields(pt.fields.fields);
    forall j | 0 <= j < |pt.fields.fields| && Coerce(pt.fields.fields[j].value).Some?
      ensures exists m :: 0 <= m < |tss| && IsSeriesFor(pt, pt.fields.fields[j], tss[m])
    {
      NumericFieldsMembers(pt.fields.fields, pt.fields.fields[j]);
      var m :| 0 <= m < |numeric| && numeric[m] == pt.fields.fields[j];
      assert IsSeriesFor(pt, numeric[m], tss[m]);
    }
    forall m | 0 <= m < |tss|
      ensures exists j :: 0 <= j < |pt.fields.fields| && IsSeriesFor(pt, pt.fields.fields[j], tss[m])
    {
      assert numeric[m] in numeric;
      NumericFieldsMembers(pt.fields.fields, numeric[m]);
      var j :| 0 <= j < |pt.fields.fields| && pt.fields.fields[j] == numeric[m];
      assert IsSeriesFor(pt, pt.fields.fields[j], tss[m]);
    }
  }

  /**
   * With an ASCII metric name and ASCII tag keys, every label name of the
   * series is a valid Prometheus label name.
   */
  lemma SeriesLabelNamesValid(pt: Point, f: Field, ts: TimeSeries)
    requires IsSeriesFor(pt, f, ts)
    requires IsAscii(MetricName(pt.name, f.key))
    requires forall k :: 0 <= k < |pt.tags| ==> IsAscii(pt.tags[k].key)
    ensures forall p :: 0 <= p < |ts.labels| ==> IsLabelName(ts.labels[p].name)
  {
    hide Sanitized;
    SeriesLabels(pt, f, ts);
    SanitizedAscii(MetricName(pt.name, f.key));
    assert IsLabelName(MetricNameLabel);
    forall p | 0 <= p < |ts.labels|
      ensures IsLabelName(ts.labels[p].name)
    {
      var l := ts.labels[p];
      assert l in ts.labels;
      if l != Label(MetricNameLabel, Sanitized(MetricName(pt.name, f.key))) {
        var k :| 0 <= k < |pt.tags| && pt.tags[k].key != MetricNameLabel && l == TagLabel(pt.tags[k]);
        SanitizedAscii(pt.tags[k].key);
      }
    }
  }

  /** A list with the same labels as `[a, b]` is `[a, b]` or `[b, a]`. */
  lemma PairOrders(ls: seq<Label>, a: Label, b: Label)
    requires multiset(ls) == multiset([a, b])
    ensures ls == [a, b] || ls == [b, a]
    ensures |ls| == 2 && a in ls && b in ls
    ensures (ls[0] == a && ls[1] == b) || (ls[0] == b && ls[1] == a)
  {
    assert |ls| == |multiset(ls)| == 2;
    assert ls == [ls[0], ls[1]];
    assert ls[0] in multiset(ls) && ls[1] in multiset(ls);
    assert multiset(ls)[a] == multiset([a, b])[a];
  }

  /** A sorted list holding exactly two labels, the first of which has the lesser name, is those two in order. */
  lemma SortedPair(ls: seq<Label>, a: Label, b: Label)
    requires SortedByName(ls) && multiset(ls) == multiset([a, b]) && Less(a.name, b.name)
    ensures ls == [a, b]
  {
    assert |ls| == |multiset(ls)| == 2;
    assert ls == [ls[0], ls[1]];
    LessIrreflexive(a.name);
    LessAsymmetric(a.name, b.name);
    assert multiset(ls)[a] == 1 && multiset(ls)[b] == 1;
    assert !Less(ls[1].name, ls[0].name);
  }

  /**
   * `temperature,host=a value=72.5 1000000000` read with precision `s` (so
   * 10^18 ns): one series, labels `__name__="temperature"` then `host="a"`,
   * one sample at 10^12 ms holding 72.5 (bit pattern 0x4052200000000000).
   */
  lemma TemperatureExample(tss: seq<TimeSeries>)
    requires ConvertedPoint(Point("temperature", [Tag("host", "a")],
      Parsed([Field("value", Float(0x4052_2000_0000_0000))]), 1_000_000_000_000_000_000), tss)
    ensures tss == [TimeSeries([Label("__name__", "temperature"), Label("host", "a")],
      [Sample(1_000_000_000_000, FloatBits(0x4052_2000_0000_0000))])]
  {
    hide Sanitized, SortedByName, ConvertedPoint, IsSeriesFor, KeptTags, NumericFields, TagLabels, TagLabel, UnsortedLabels, MetricName;
    var pt := Point("temperature", [Tag("host", "a")],
      Parsed([Field("value", Float(0x4052_2000_0000_0000))]), 1_000_000_000_000_000_000);
    var f := Field("value", Float(0x4052_2000_0000_0000));
    OneTagSeries(pt, f, pt.tags[0], tss);
    TemperatureHostNames(pt.name, pt.tags[0].key);
    SortedPair(tss[0].labels, Label("__name__", "temperature"), Label("host", "a"));
  }

  /**
   * A point with one field that yields a series and one tag converts to one
   * series: the `__name__` label and, unless the raw tag key is `__name__`,
   * the tag's label, in some by-name sorted order.
   */
  lemma OneTagSeries(pt: Point, f: Field, t: Tag, tss: seq<TimeSeries>)
    requires pt.fields == Parsed([f]) && pt.tags == [t] && Coerce(f.value).Some? && ConvertedPoint(pt, tss)
    ensures |tss| == 1 && SortedByName(tss[0].labels)
    ensures tss[0].samples == [Sample(TimeToMillis(pt.time), Coerce(f.value).value)]
    ensures t.key != MetricNameLabel ==> (multiset(tss[0].labels) ==
      multiset([Label(MetricNameLabel, Sanitized(MetricName(pt.name, f.key))), Label(Sanitized(t.key), t.value)]))
    ensures t.key == MetricNameLabel ==> (multiset(tss[0].labels) ==
      multiset([Label(MetricNameLabel, Sanitized(MetricName(pt.name, f.key)))]))
  {
    hide Sanitized, SortedByName, TimeToMillis, ConvertedPoint, IsSeriesFor, KeptTags;
    SingleFieldSeries(pt, f, tss);
    assert pt.tags[0] == t;
    TagLabelsSingle(t);
  }

  /** A point with one field that yields a series converts to exactly that field's series. */
  lemma SingleFieldSeries(pt: Point, f: Field, tss: seq<TimeSeries>)
    requires pt.fields == Parsed([f]) && Coerce(f.value).Some? && ConvertedPoint(pt, tss)
    ensures |tss| == 1 && SortedByName(tss[0].labels)
    ensures |MetricName(pt.name, f.key)| > 0 && TagKeysSanitizable(pt.tags)
    ensures multiset(tss[0].labels) == multiset(UnsortedLabels(pt, f))
    ensures tss[0].samples == [Sample(TimeToMillis(pt.time), Coerce(f.value).value)]
  {
    hide Sanitized, SortedByName, TimeToMillis, TagLabels;
    assert [f][..0] == [];
    assert NumericFields([f]) == [f];
    assert IsSeriesFor(pt, f, tss[0]);
  }

  /** A one-tag list yields that tag's label, unless its raw key is `__name__`. */
  lemma TagLabelsSingle(t: Tag)
    requires t.key != MetricNameLabel ==> |t.key| > 0
    ensures TagLabels([t]) == if t.key != MetricNameLabel then [TagLabel(t)] else []
  {
    assert [t][0] == t;
    assert TagKeysSanitizable([t]);
    hide Sanitized, KeptTags;
    assert [t][..0] == [];
  }

  /** Field `value` of measurement `temperature` is the metric `temperature`; it and `host` are left alone by sanitising. */
  lemma TemperatureHostNames(name: Bytes, tag: Bytes)
    requires name == "temperature" && tag == "host"
    ensures MetricName(name, "value") == name
    ensures Sanitized(name) == name && Sanitized(tag) == tag
  {
    hide Sanitized;
    assert forall k :: 0 <= k < |name| ==> IsNameByte(name[k]);
    assert forall k :: 0 <= k < |tag| ==> IsNameByte(tag[k]);
    assert IsLabelName(name) && IsLabelName(tag);
    SanitizedFixedPoints(name);
    SanitizedFixedPoints(tag);
  }

  /** Field `usage` of measurement `cpu` is the metric `cpu_usage`, which sanitising leaves alone. */
  lemma CpuUsageMetric(measurement: Bytes, field: Bytes, name: Bytes)
    requires measurement == "cpu" && field == "usage" && name == "cpu_usage"
    ensures MetricName(measurement, field) == name && Sanitized(name) == name
  {
    hide Sanitized;
    assert forall k :: 0 <= k < |name| ==> IsNameByte(name[k]);
    assert IsLabelName(name);
    SanitizedFixedPoints(name);
  }

  /**
   * A tag whose raw key is `__name__` is dropped: `cpu,__name__=foo usage=1`
   * yields one series whose only label is `__name__="cpu_usage"`.
   */
  lemma RawNameTagDropped(tss: seq<TimeSeries>, time: int)
    requires ConvertedPoint(Point("cpu", [Tag("__name__", "foo")], Parsed([Field("usage", Float(One))]), time), tss)
    ensures |tss| == 1 && tss[0].labels == [Label("__name__", "cpu_usage")]
  {
    hide Sanitized, SortedByName, ConvertedPoint, IsSeriesFor, KeptTags, NumericFields, TagLabels, TagLabel, UnsortedLabels, MetricName, TimeToMillis;
    var pt := Point("cpu", [Tag("__name__", "foo")], Parsed([Field("usage", Float(One))]), time);
    var f := Field("usage", Float(One));
    OneTagSeries(pt, f, pt.tags[0], tss);
    CpuUsageMetric(pt.name, f.key, "cpu_usage");
    var ls := tss[0].labels;
    assert multiset(ls) == multiset([Label("__name__", "cpu_usage")]);
    assert |ls| == 1 && ls[0] in multiset(ls);
  }

  /**
   * The `__name__` check looks at the raw key, before sanitising: the tag
   * key `__name._` sanitises to `__name__` and is kept, so
   * `cpu,__name._=x usage=1` yields a series with two labels named `__name__`.
   */
  lemma SanitizedNameTagKept(tss: seq<TimeSeries>, time: int)
    requires ConvertedPoint(Point("cpu", [Tag("__name._", "x")], Parsed([Field("usage", Float(One))]), time), tss)
    ensures |tss| == 1 && |tss[0].labels| == 2
    ensures tss[0].labels[0].name == "__name__" && tss[0].labels[1].name == "__name__"
    ensures Label("__name__", "cpu_usage") in tss[0].labels && Label("__name__", "x") in tss[0].labels
  {
    hide Sanitized, SortedByName, ConvertedPoint, IsSeriesFor, KeptTags, NumericFields, TagLabels, TagLabel, UnsortedLabels, MetricName, TimeToMillis;
    var pt := Point("cpu", [Tag("__name._", "x")], Parsed([Field("usage", Float(One))]), time);
    var f := Field("usage", Float(One));
    OneTagSeries(pt, f, pt.tags[0], tss);
    CpuUsageMetric(pt.name, f.key, "cpu_usage");
    SanitizedDotKey();
    PairOrders(tss[0].labels, Label("__name__", "cpu_usage"), Label("__name__", "x"));
  }
}

/**
 * `writeRequestFromInfluxPoints`: the series of all points, point after
 * point, or the first point's error and no series at all.
 */
module BatchConversion {
  import opened Wrappers
  import opened GoStrings
  import opened InfluxModels
  import opened Prompb
  import opened PointConversion

  /** The error of the first point whose fields cannot be read, if any. */
  function FirstFailure(points: seq<Point>): (r: Option<Bytes>)
    ensures r.None? <==> forall i :: 0 <= i < |points| ==> points[i].fields.Parsed?
  {
    if points == [] then None
    else if points[0].fields.Unparsable? then Some(FieldsErrorPrefix + points[0].fields.reason)
    else
      var rest := FirstFailure(points[1..]);
      assert forall i :: 1 <= i < |points| ==> points[i] == points[1..][i - 1];
      rest
  }

  /** `out` is the concatenation, in point order, of one conversion result per point. */
  ghost predicate ConvertedBatch(points: seq<Point>, out: seq<TimeSeries>)
    decreases |points|
  {
    if points == [] then out == []
    else
      && points[0].fields.Parsed?
      && var k := |NumericFields(points[0].fields.fields)|;
      && k <= |out|
      && ConvertedPoint(points[0], out[..k])
      && ConvertedBatch(points[1..], out[k..])
  }

  /** A point's series followed by a batch of the remaining points is a batch of all of them. */
  lemma ConvertedBatchCons(pt: Point, rest: seq<Point>, tss: seq<TimeSeries>, out: seq<TimeSeries>)
    requires ConvertedPoint(pt, tss) && ConvertedBatch(rest, out)
    ensures ConvertedBatch([pt] + rest, tss + out)
  {
    var all, both := [pt] + rest, tss + out;
    assert |tss| == |NumericFields(pt.fields.fields)|;
    assert all[0] == pt && all[1..] == rest;
    assert both[..|tss|] == tss && both[|tss|..] == out;
  }

  /** Splitting a list at `k` and joining it back before a suffix gives the list followed by the suffix. */
  lemma SplitJoin<T>(s: seq<T>, k: nat, t: seq<T>)
    requires k <= |s|
    ensures s[..k] + (s[k..] + t) == s + t
  {
    assert s[..k] + s[k..] == s;
  }

  /** A batch of a non-empty point list starts with the first point's series. */
  lemma ConvertedBatchUncons(points: seq<Point>, out: seq<TimeSeries>)
    requires ConvertedBatch(points, out) && points != []
    ensures points[0].fields.Parsed?
    ensures |NumericFields(points[0].fields.fields)| <= |out|
    ensures ConvertedPoint(points[0], out[..|NumericFields(points[0].fields.fields)|])
    ensures ConvertedBatch(points[1..], out[|NumericFields(points[0].fields.fields)|..])
  {
  }

  /** Appending one point's series to a batch's keeps it a batch of the longer point list. */
  lemma {:induction false} ConvertedBatchAppend(points: seq<Point>, out: seq<TimeSeries>, pt: Point, tss: seq<TimeSeries>)
    requires ConvertedBatch(points, out) && ConvertedPoint(pt, tss)
    ensures ConvertedBatch(points + [pt], out + tss)
    decreases |points|
  {
    if points == [] {
      assert out == [];
      hide ConvertedPoint, ConvertedBatch;
      assert ConvertedBatch([], []);
      ConvertedBatchCons(pt, [], tss, []);
      assert [pt] + [] == points + [pt] && tss + [] == out + tss;
    } else {
      hide ConvertedPoint, ConvertedBatch;
      ConvertedBatchUncons(points, out);
      var k := |NumericFields(points[0].fields.fields)|;
      ConvertedBatchAppend(points[1..], out[k..], pt, tss);
      ConvertedBatchCons(points[0], points[1..] + [pt], out[..k], out[k..] + tss);
      SplitJoin(points, 1, [pt]);
      SplitJoin(out, k, tss);
    }
  }

  /** The number of series is the number of fields, over all points, whose value is a float, int or bool. */
  function SeriesCount(points: seq<Point>): nat {
    if points == [] then 0
    else (if points[0].fields.Parsed? then |NumericFields(points[0].fields.fields)| else 0) + SeriesCount(points[1..])
  }

  lemma {:induction false} ConvertedBatchCount(points: seq<Point>, out: seq<TimeSeries>)
    requires ConvertedBatch(points, out)
    ensures |out| == SeriesCount(points)
    decreases |points|
  {
    if points != [] {
      var k := |NumericFields(points[0].fields.fields)|;
      ConvertedBatchCount(points[1..], out[k..]);
    }
  }

  /** Every series of a batch is the series of one field of one of its points. */
  lemma {:induction false} ConvertedBatchSound(points: seq<Point>, out: seq<TimeSeries>, m: nat)
    requires ConvertedBatch(points, out) && m < |out|
    ensures exists i, j :: (0 <= i < |points| && points[i].fields.Parsed? && 0 <= j < |points[i].fields.fields|
                            && IsSeriesFor(points[i], points[i].fields.fields[j], out[m]))
    decreases |points|
  {
    hide ConvertedPoint, IsSeriesFor, NumericFields;
    var k := |NumericFields(points[0].fields.fields)|;
    if m < k {
      ConvertedPointFields(points[0], out[..k]);
      assert out[..k][m] == out[m];
      var j :| 0 <= j < |points[0].fields.fields| && IsSeriesFor(points[0], points[0].fields.fields[j], out[m]);
      assert IsSeriesFor(points[0], points[0].fields.fields[j], out[m]);
    } else {
      ConvertedBatchSound(points[1..], out[k..], m - k);
      var i, j :| 0 <= i < |points[1..]| && points[1..][i].fields.Parsed? && 0 <= j < |points[1..][i].fields.fields|
        && IsSeriesFor(points[1..][i], points[1..][i].fields.fields[j], out[k..][m - k]);
      assert points[1..][i] == points[i + 1] && out[k..][m - k] == out[m];
    }
  }

  /** `writeRequestFromInfluxPoints(points)`. */
  method WriteRequestFromPoints(points: seq<Point>) returns (res: Result<seq<TimeSeries>, Bytes>)
    requires forall i :: 0 <= i < |points| ==> Convertible(points[i])
    ensures res.Err? <==> FirstFailure(points).Some?
    ensures res.Err? ==> res.error == FirstFailure(points).value
    ensures res.Ok? ==> ConvertedBatch(points, res.value)
  {
    var returnTs: seq<TimeSeries> := [];
    for i := 0 to |points|
      invariant FirstFailure(points[..i]).None?
      invariant ConvertedBatch(points[..i], returnTs)
    {
      var ts := PointToTimeSeries(points[i]);
      if ts.Err? {
        FirstFailureAt(points, i);
        return Err(ts.error);
      }
      ConvertedBatchAppend(points[..i], returnTs, points[i], ts.value);
      assert points[..i + 1] == points[..i] + [points[i]];
      returnTs := returnTs + ts.value;
    }
    assert points[..|points|] == points;
    return Ok(returnTs);
  }

  /** When the points before `i` all have readable fields and point `i` does not, its error is the batch's. */
  lemma {:induction false} FirstFailureAt(points: seq<Point>, i: nat)
    requires i < |points| && FirstFailure(points[..i]).None? && points[i].fields.Unparsable?
    ensures FirstFailure(points) == Some(FieldsErrorPrefix + points[i].fields.reason)
  {
    if i > 0 {
      assert points[..i][0] == points[0];
      assert points[..i][1..] == points[1..][..i - 1];
      FirstFailureAt(points[1..], i - 1);
    }
  }
}

/**
 * `parseInfluxLineReader`: default the `precision` query parameter, reject
 * an unknown one before the body is touched, then read, parse and convert.
 * Reading the body and the line-protocol parser are outside the model: the
 * body arrives as the outcome of the read, the parser as a function, and
 * the parser's notion of a known precision as a predicate.
 */
module LineRequest {
  import opened Wrappers
  import opened GoStrings
  import opened InfluxModels
  import opened Prompb
  import opened PointConversion
  import opened BatchConversion

  const DefaultPrecision: Bytes := "ns"
  const InvalidPrecisionPrefix: Bytes := "precision supplied is not valid: "

  /** The precision the request asks for: the query value, or nanoseconds when it is absent or empty. */
  function EffectivePrecision(param: Bytes): (p: Bytes)
    ensures p != ""
    ensures param != "" ==> p == param
    ensures param == "" ==> p == DefaultPrecision
  {
    if param == "" then DefaultPrecision else param
  }

  /** The precision handed to the parser, or the request's error when it is not one the parser knows. */
  function ResolvePrecision(param: Bytes, valid: Bytes -> bool): (r: Result<Bytes, Bytes>)
    ensures r.Ok? <==> valid(EffectivePrecision(param))
    ensures r.Ok? ==> r.value == EffectivePrecision(param)
    ensures r.Err? ==> r.error == InvalidPrecisionPrefix + EffectivePrecision(param)
  {
    var precision := EffectivePrecision(param);
    if valid(precision) then Ok(precision) else Err(InvalidPrecisionPrefix + precision)
  }

  /** The precisions the line protocol defines: nanoseconds, microseconds, milliseconds, seconds. */
  predicate StandardPrecision(p: Bytes) {
    p == "ns" || p == "us" || p == "ms" || p == "s"
  }

  /** With the standard set, a request is accepted exactly when it names one of them or names none. */
  lemma StandardPrecisionAccepted(param: Bytes)
    ensures ResolvePrecision(param, StandardPrecision).Ok? <==> (param == "" || StandardPrecision(param))
    ensures param == "" ==> ResolvePrecision(param, StandardPrecision) == Ok("ns")
  {
  }

  /** Asking for `ns` explicitly is the same request as asking for no precision. */
  lemma ExplicitDefaultPrecision(valid: Bytes -> bool)
    ensures ResolvePrecision("ns", valid) == ResolvePrecision("", valid)
  {
  }

  /** An unknown precision such as "h" is reported with its own text, whatever the body. */
  lemma HourPrecisionRejected()
    ensures ResolvePrecision("h", StandardPrecision) == Err("precision supplied is not valid: h")
  {
    assert !StandardPrecision("h");
    assert InvalidPrecisionPrefix + "h" == "precision supplied is not valid: h";
  }

  /** Every point the parser returns for this body and precision can be handed to the converter. */
  ghost predicate ParsedPointsConvertible(body: Result<Bytes, Bytes>, precision: Bytes,
                                          parse: (Bytes, Bytes) -> Result<seq<Point>, Bytes>)
  {
    body.Ok? && parse(body.value, precision).Ok? ==>
      forall i :: 0 <= i < |parse(body.value, precision).value| ==> Convertible(parse(body.value, precision).value[i])
  }

  /** `parseInfluxLineReader(ctx, r, maxSize)`, with the body read and the parser given. */
  method ParseInfluxLineReader(param: Bytes, body: Result<Bytes, Bytes>, valid: Bytes -> bool,
                               parse: (Bytes, Bytes) -> Result<seq<Point>, Bytes>)
    returns (res: Result<seq<TimeSeries>, Bytes>)
    requires ParsedPointsConvertible(body, EffectivePrecision(param), parse)
    ensures ResolvePrecision(param, valid).Err? ==> res == Err(ResolvePrecision(param, valid).error)
    ensures ResolvePrecision(param, valid).Ok? && body.Err? ==> res == Err(body.error)
    ensures ResolvePrecision(param, valid).Ok? && body.Ok? ==>
      var parsed := parse(body.value, ResolvePrecision(param, valid).value);
      && (parsed.Err? ==> res == Err(parsed.error))
      && (parsed.Ok? ==>
            && (res.Err? <==> FirstFailure(parsed.value).Some?)
            && (res.Err? ==> res.error == FirstFailure(parsed.value).value)
            && (res.Ok? ==> ConvertedBatch(parsed.value, res.value)))
  {
    var precision := param;
    if precision == "" {
      precision := DefaultPrecision;
    }
    if !valid(precision) {
      return Err(InvalidPrecisionPrefix + precision);
    }
    if body.Err? {
      return Err(body.error);
    }
    var points := parse(body.value, precision);
    if points.Err? {
      return Err(points.error);
    }
    res := WriteRequestFromPoints(points.value);
  }
}

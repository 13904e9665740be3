/**
 * The hand-written parts of the persisted session record: the
 * `connectionData` and `metrics` validators and the quality tier set.
 */
module SessionModel {
  import opened JsValues
  import DottedQuad

  /** The `qualityLevel` tiers, `'4K'`, `'2K'`, `'1080p'` and `'720p'`. */
  datatype QualityLevel = Q4K | Q2K | Q1080p | Q720p

  /** The tier a new session record gets when none is given. */
  const DefaultQualityLevel: QualityLevel := Q2K

  /** The name stored in the column for a tier. */
  function QualityName(q: QualityLevel): string {
    match q
    case Q4K => "4K"
    case Q2K => "2K"
    case Q1080p => "1080p"
    case Q720p => "720p"
  }

  /** The tier a stored name denotes, if any. */
  function ParseQuality(s: string): Option<QualityLevel> {
    if s == "4K" then Some(Q4K)
    else if s == "2K" then Some(Q2K)
    else if s == "1080p" then Some(Q1080p)
    else if s == "720p" then Some(Q720p)
    else None
  }

  /** Names and tiers correspond one to one, and the default tier is named "2K". */
  lemma QualityNameRoundTrip(q: QualityLevel, s: string)
    ensures ParseQuality(QualityName(q)) == Some(q)
    ensures ParseQuality(s) == Some(q) <==> s == QualityName(q)
    ensures QualityName(DefaultQualityLevel) == "2K"
  {
  }

  // ---------------------------------------------------------------------
  // connectionData

  /** `/^(?:[0-9]{1,3}\.){3}[0-9]{1,3}$/.test(v)`, when it does not throw.
      `test` first converts its argument to a string: a string is itself; an
      array is its elements joined with commas, so only a one-element array
      can avoid a comma, and it stands for its element (a nullish element
      gives ""); numbers, booleans, `null`, `undefined` and plain objects
      convert to text with at most one dot or none at all
      ("[object Object]"), which never matches. */
  predicate IpPatternTest(v: JsValue) {
    match v
    case Str(s) => DottedQuad.Matches(s)
    case Arr(items) => |items| == 1 && IpPatternTest(items[0])
    case _ => false
  }

  /** When the string conversion of `test` throws a TypeError. Stored data
      holds no functions, so an object with its own `toString` key hides the
      inherited method behind a value that cannot be called; the conversion
      falls back to the inherited `valueOf`, which yields the object itself,
      not a primitive. An array converts every element, so one such element
      anywhere inside it is enough. */
  predicate ToStringThrows(v: JsValue) {
    match v
    case Obj(fields) => "toString" in fields
    case Arr(items) => exists i :: 0 <= i < |items| && ToStringThrows(items[i])
    case _ => false
  }

  /** A value whose conversion throws never has the address shape, so the
      two outcomes of `test` do not overlap. */
  lemma {:induction false} ThrowingIpNeverMatches(v: JsValue)
    ensures ToStringThrows(v) ==> !IpPatternTest(v)
  {
    match v
    case Arr(items) =>
      if ToStringThrows(v) && |items| == 1 {
        var i :| 0 <= i < |items| && ToStringThrows(items[i]);
        assert i == 0;
        ThrowingIpNeverMatches(items[0]);
      }
    case _ =>
  }

  /** `isValidConnectionData`: `ip` is shape-checked only when truthy, and
      the check throws a TypeError when `ip` cannot be converted to a
      string; `bandwidth` and `latency` must be numbers only when truthy. */
  function ValidateConnectionData(value: JsValue): Outcome {
    if Nullish(value) then Fail(TypeError)
    else
      var ip := Field(value, "ip");
      var bandwidth := Field(value, "bandwidth");
      var latency := Field(value, "latency");
      if Truthy(ip) && ToStringThrows(ip) then Fail(TypeError)
      else if Truthy(ip) && !IpPatternTest(ip) then Fail(Error("Invalid IP address format"))
      else if Truthy(bandwidth) && !IsNumber(bandwidth) then Fail(Error("Bandwidth must be a number"))
      else if Truthy(latency) && !IsNumber(latency) then Fail(Error("Latency must be a number"))
      else Pass
  }

  /** The column default `{}`. */
  const DefaultConnectionData: JsValue := Obj(map[])

  /** The default is accepted: with no `ip`, the shape check is skipped. */
  lemma DefaultConnectionDataValid()
    ensures ValidateConnectionData(DefaultConnectionData) == Pass
  {
  }

  /** A record holding only a string `ip` is rejected exactly when the
      string is non-empty and lacks the dotted-quad shape. */
  lemma OnlyIpRecord(s: string)
    ensures ValidateConnectionData(Obj(map["ip" := Str(s)])) ==
              if s != "" && !DottedQuad.Matches(s) then Fail(Error("Invalid IP address format")) else Pass
  {
    var v := Obj(map["ip" := Str(s)]);
    assert Field(v, "bandwidth") == Undefined;
    assert Field(v, "latency") == Undefined;
  }

  /** For a record holding only a non-empty string `ip`, the record is
      accepted exactly when the string has the regular expression's shape. */
  lemma IpStringAcceptedIffRegexShape(s: string)
    requires s != ""
    ensures ValidateConnectionData(Obj(map["ip" := Str(s)])) == Pass <==> DottedQuad.RegexShape(s)
    ensures ValidateConnectionData(Obj(map["ip" := Str(s)])) != Pass ==>
              ValidateConnectionData(Obj(map["ip" := Str(s)])) == Fail(Error("Invalid IP address format"))
  {
    OnlyIpRecord(s);
    DottedQuad.MatchesIsRegexShape(s);
  }

  /** Parts above 255 are not caught; an empty `ip` is not checked. */
  lemma IpQuirks()
    ensures ValidateConnectionData(Obj(map["ip" := Str("999.999.999.999")])) == Pass
    ensures ValidateConnectionData(Obj(map["ip" := Str("")])) == Pass
    ensures ValidateConnectionData(Obj(map["ip" := Str("1.2.3")])) == Fail(Error("Invalid IP address format"))
  {
    OnlyIpRecord("999.999.999.999");
    OnlyIpRecord("");
    OnlyIpRecord("1.2.3");
    DottedQuad.OutOfRangeGroupsAccepted();
    DottedQuad.WrongShapesRejected();
  }

  /** The string coercion of `test`: an array holding one non-empty string
      is judged as if it were the string itself, so an array holding one
      well-shaped address is accepted. */
  lemma SingletonArrayIpLikeString(s: string)
    requires s != ""
    ensures ValidateConnectionData(Obj(map["ip" := Arr([Str(s)])])) ==
            ValidateConnectionData(Obj(map["ip" := Str(s)]))
  {
    var ip := Arr([Str(s)]);
    assert IpPatternTest(ip) == DottedQuad.Matches(s);
    var v := Obj(map["ip" := ip]);
    assert Field(v, "ip") == ip;
    assert Field(v, "bandwidth") == Undefined;
    assert Field(v, "latency") == Undefined;
    OnlyIpRecord(s);
  }

  /** A number never has the shape, whatever its digits. */
  lemma NumericIpRejected(n: real)
    requires n != 0.0
    ensures ValidateConnectionData(Obj(map["ip" := Num(n)])) == Fail(Error("Invalid IP address format"))
  {
    var v := Obj(map["ip" := Num(n)]);
    assert Field(v, "ip") == Num(n);
  }

  /** `bandwidth` and `latency` are checked only when truthy: `0` and absent
      values pass, a non-numeric truthy value fails with its own message. */
  lemma NumericConnectionFields(x: JsValue)
    requires Truthy(x) && !IsNumber(x)
    ensures ValidateConnectionData(Obj(map["bandwidth" := Num(0.0), "latency" := Num(0.0)])) == Pass
    ensures ValidateConnectionData(Obj(map["bandwidth" := x])) == Fail(Error("Bandwidth must be a number"))
    ensures ValidateConnectionData(Obj(map["latency" := x])) == Fail(Error("Latency must be a number"))
    ensures ValidateConnectionData(Obj(map["bandwidth" := x, "latency" := x])) == Fail(Error("Bandwidth must be a number"))
  {
  }

  /** The `ip` of a record passes its check: absent, falsy, or shaped. */
  predicate IpPasses(fields: map<string, JsValue>) {
    "ip" in fields && Truthy(fields["ip"]) ==> IpPatternTest(fields["ip"])
  }

  /** Accepted exactly when each of the three fields is falsy or has the
      required form; an `ip` whose conversion throws is never accepted, and
      its TypeError comes before every other error. Otherwise, when both a
      bad `ip` and a bad `bandwidth` are present, the `ip` error is the one
      thrown, and a bad `bandwidth` is reported before a bad `latency`. */
  lemma ConnectionDataAcceptedIff(fields: map<string, JsValue>)
    ensures ValidateConnectionData(Obj(fields)) == Pass <==>
      (forall k :: k in fields && k == "ip" && Truthy(fields[k]) ==> IpPatternTest(fields[k])) &&
      (forall k :: k in fields && (k == "bandwidth" || k == "latency") && Truthy(fields[k]) ==> IsNumber(fields[k]))
    ensures "ip" in fields && Truthy(fields["ip"]) && ToStringThrows(fields["ip"]) ==>
      ValidateConnectionData(Obj(fields)) == Fail(TypeError)
    ensures "ip" in fields && Truthy(fields["ip"]) && !ToStringThrows(fields["ip"]) && !IpPatternTest(fields["ip"]) ==>
      ValidateConnectionData(Obj(fields)) == Fail(Error("Invalid IP address format"))
    ensures IpPasses(fields) && "bandwidth" in fields && Truthy(fields["bandwidth"]) && !IsNumber(fields["bandwidth"]) ==>
      ValidateConnectionData(Obj(fields)) == Fail(Error("Bandwidth must be a number"))
    ensures IpPasses(fields) && ("bandwidth" in fields && Truthy(fields["bandwidth"]) ==> IsNumber(fields["bandwidth"])) &&
            "latency" in fields && Truthy(fields["latency"]) && !IsNumber(fields["latency"]) ==>
      ValidateConnectionData(Obj(fields)) == Fail(Error("Latency must be a number"))
  {
    if "ip" in fields {
      ThrowingIpNeverMatches(fields["ip"]);
    }
  }

  /** An `ip` object carrying its own `toString` key, alone or inside an
      array, makes the check throw a TypeError rather than the format error. */
  lemma IpWithOwnToStringThrows(x: JsValue)
    ensures ValidateConnectionData(Obj(map["ip" := Obj(map["toString" := x])])) == Fail(TypeError)
    ensures ValidateConnectionData(Obj(map["ip" := Arr([Str("1.2.3.4"), Obj(map["toString" := x])])])) == Fail(TypeError)
  {
    var o := Obj(map["toString" := x]);
    assert Field(Obj(map["ip" := o]), "ip") == o;
    var a := Arr([Str("1.2.3.4"), o]);
    assert a.items[1] == o;
    assert Field(Obj(map["ip" := a]), "ip") == a;
  }

  // ---------------------------------------------------------------------
  // metrics

  /** The fields `isValidMetrics` checks, in the order it checks them. */
  const NumericFields: seq<string> := ["framesRendered", "droppedFrames", "avgLatency", "totalDataTransferred"]

  /** The `forEach` over `fields`: throws for the first one that is defined
      (`!== undefined`) but not a number. */
  function CheckNumericFields(value: JsValue, fields: seq<string>): Outcome
    requires !Nullish(value)
  {
    if fields == [] then Pass
    else
      var v := Field(value, fields[0]);
      if !v.Undefined? && !IsNumber(v) then Fail(Error(fields[0] + " must be a number"))
      else CheckNumericFields(value, fields[1..])
  }

  /** `isValidMetrics`. */
  function ValidateMetrics(value: JsValue): Outcome {
    if Nullish(value) then Fail(TypeError) else CheckNumericFields(value, NumericFields)
  }

  /** A field is acceptable when absent (undefined) or a number; `null` is
      neither, since `typeof null` is `'object'`. */
  predicate NumberOrUndefined(v: JsValue) {
    v.Undefined? || IsNumber(v)
  }

  lemma {:induction false} CheckNumericFieldsIff(value: JsValue, fields: seq<string>)
    requires !Nullish(value)
    ensures CheckNumericFields(value, fields) == Pass <==>
              forall i :: 0 <= i < |fields| ==> NumberOrUndefined(Field(value, fields[i]))
    ensures CheckNumericFields(value, fields) != Pass ==>
              exists i :: 0 <= i < |fields| &&
                (forall j :: 0 <= j < i ==> NumberOrUndefined(Field(value, fields[j]))) &&
                !NumberOrUndefined(Field(value, fields[i])) &&
                CheckNumericFields(value, fields) == Fail(Error(fields[i] + " must be a number"))
  {
    if fields != [] {
      CheckNumericFieldsIff(value, fields[1..]);
      if NumberOrUndefined(Field(value, fields[0])) && CheckNumericFields(value, fields) != Pass {
        var i :| 0 <= i < |fields[1..]| &&
                (forall j :: 0 <= j < i ==> NumberOrUndefined(Field(value, fields[1..][j]))) &&
                !NumberOrUndefined(Field(value, fields[1..][i])) &&
                CheckNumericFields(value, fields[1..]) == Fail(Error(fields[1..][i] + " must be a number"));
        assert forall j :: 0 <= j < i + 1 ==> NumberOrUndefined(Field(value, fields[j]));
      }
    }
  }

  /** A metrics record is accepted exactly when each of the four numeric
      fields is absent or a number; otherwise the first offending field, in
      the fixed order, is named in the error. A nullish record throws a
      TypeError at the first field read. */
  lemma MetricsAcceptedIff(value: JsValue)
    ensures Nullish(value) ==> ValidateMetrics(value) == Fail(TypeError)
    ensures !Nullish(value) ==>
              (ValidateMetrics(value) == Pass <==>
                 forall i :: 0 <= i < |NumericFields| ==> NumberOrUndefined(Field(value, NumericFields[i])))
    ensures !Nullish(value) && ValidateMetrics(value) != Pass ==>
              exists i :: 0 <= i < |NumericFields| &&
                ValidateMetrics(value) == Fail(Error(NumericFields[i] + " must be a number"))
  {
    if !Nullish(value) {
      CheckNumericFieldsIff(value, NumericFields);
    }
  }

  lemma {:induction false} CheckNumericFieldsIgnores(fields: map<string, JsValue>, names: seq<string>, k: string, x: JsValue)
    requires k !in names
    ensures CheckNumericFields(Obj(fields[k := x]), names) == CheckNumericFields(Obj(fields), names)
  {
    if names != [] {
      CheckNumericFieldsIgnores(fields, names[1..], k, x);
    }
  }

  /** Fields other than the four numeric ones, `connectionQuality` among
      them, have no influence on the verdict. */
  lemma MetricsIgnoreOtherFields(fields: map<string, JsValue>, k: string, x: JsValue)
    requires k !in NumericFields
    ensures ValidateMetrics(Obj(fields[k := x])) == ValidateMetrics(Obj(fields))
  {
    CheckNumericFieldsIgnores(fields, NumericFields, k, x);
  }

  /** The column default. */
  const DefaultMetrics: JsValue := Obj(map[
    "framesRendered" := Num(0.0),
    "droppedFrames" := Num(0.0),
    "avgLatency" := Num(0.0),
    "totalDataTransferred" := Num(0.0),
    "connectionQuality" := Str("good")])

  /** The default metrics record is accepted. */
  lemma DefaultMetricsValid()
    ensures ValidateMetrics(DefaultMetrics) == Pass
  {
    assert Field(DefaultMetrics, "framesRendered") == Num(0.0);
    assert Field(DefaultMetrics, "droppedFrames") == Num(0.0);
    assert Field(DefaultMetrics, "avgLatency") == Num(0.0);
    assert Field(DefaultMetrics, "totalDataTransferred") == Num(0.0);
    CheckNumericFieldsIff(DefaultMetrics, NumericFields);
  }

  /** A `null` counter is rejected, and so is a string or boolean one; the
      error names the first offending field in the fixed order. */
  lemma NonNumericCountersRejected()
    ensures ValidateMetrics(Obj(map["droppedFrames" := Null])) == Fail(Error("droppedFrames must be a number"))
    ensures ValidateMetrics(Obj(map["avgLatency" := Str("5"), "framesRendered" := Bool(true)])) ==
              Fail(Error("framesRendered must be a number"))
  {
    var rest := ["droppedFrames", "avgLatency", "totalDataTransferred"];
    assert NumericFields[0] == "framesRendered" && NumericFields[1..] == rest;
    var nullDropped := Obj(map["droppedFrames" := Null]);
    assert Field(nullDropped, "framesRendered") == Undefined;
    assert Field(nullDropped, "droppedFrames") == Null;
    assert "droppedFrames" + " must be a number" == "droppedFrames must be a number";
    assert "framesRendered" + " must be a number" == "framesRendered must be a number";
    var stringy := Obj(map["avgLatency" := Str("5"), "framesRendered" := Bool(true)]);
    assert Field(stringy, "framesRendered") == Bool(true);
  }
}

/** Normalisation of IGDB time-to-beat fields (`parseTimeField` and the
    surrounding `fetchCompletionTimes` in src/lib/api.ts). A field arrives as
    nothing, a bare number, or an `{amount, unit}` object; seconds and minutes
    are converted to whole hours with JavaScript's `Math.round`. */
module TimeParse {
  import opened Wrappers
  import opened Text

  /** A raw time field as the service may send it. A falsy value (missing,
      `null`, `0`) is `Missing` or `Number(0)`. */
  datatype RawTime = Missing | Number(n: int) | Amount(amount: int, unit: string)

  /** The `value` of a parsed time: a number, or the raw object itself when the
      object lacks a truthy amount or unit (it is passed on unchanged). */
  datatype TimeValue = Count(n: int) | Raw(field: RawTime)

  datatype ParsedTime = ParsedTime(value: TimeValue, unit: string)

  /** The three fields of one `game_time_to_beats` row. */
  datatype TimesRow = TimesRow(hastily: RawTime, normally: RawTime, completely: RawTime)

  datatype CompletionTimes = CompletionTimes(
    hastily: Option<ParsedTime>,
    normally: Option<ParsedTime>,
    completely: Option<ParsedTime>)

  /** The answer of the time-to-beat query: not ok, or the returned rows. */
  datatype TimesResponse = NotOk | Rows(rows: seq<TimesRow>)

  const SecondsPerHour := 3600
  const MinutesPerHour := 60
  /** A bare number above this is taken to be seconds. */
  const SecondsCutoff := 10000

  /** `Math.round(v / d)`: the nearest integer, halves rounded up. */
  function RoundDiv(v: int, d: int): (r: int)
    requires d > 0
    ensures 2 * d * r - d <= 2 * v < 2 * d * r + d
  {
    var r := (2 * v + d) / (2 * d);
    assert 2 * d * r <= 2 * v + d < 2 * d * r + 2 * d by {
      var q := 2 * v + d;
      assert q == (2 * d) * (q / (2 * d)) + q % (2 * d);
    }
    r
  }

  predicate IsFalsy(field: RawTime) {
    field.Missing? || field == Number(0)
  }

  /** `parseTimeField`. */
  function ParseTimeField(field: RawTime): (r: Option<ParsedTime>)
    ensures r.None? <==> IsFalsy(field)
    ensures field.Number? && field.n != 0 ==>
      r.value.unit == "h" && r.value.value.Count? &&
      (field.n > SecondsCutoff ==> r.value.value.n == RoundDiv(field.n, SecondsPerHour)) &&
      (field.n <= SecondsCutoff ==> r.value.value.n == field.n)
    ensures field.Amount? && (field.amount == 0 || field.unit == "") ==>
      r == Some(ParsedTime(Raw(field), "h"))
    ensures field.Amount? && field.amount != 0 && field.unit != "" ==>
      r.value.value.Count? &&
      var u := Lower(field.unit);
      (u == "s" ==> r.value == ParsedTime(Count(RoundDiv(field.amount, SecondsPerHour)), "h")) &&
      (u == "m" ==> r.value == ParsedTime(Count(RoundDiv(field.amount, MinutesPerHour)), "h")) &&
      (u != "s" && u != "m" ==> r.value == ParsedTime(Count(field.amount), u))
  {
    match field
    case Missing => None
    case Number(n) =>
      if n == 0 then None
      else if n > SecondsCutoff then Some(ParsedTime(Count(RoundDiv(n, SecondsPerHour)), "h"))
      else Some(ParsedTime(Count(n), "h"))
    case Amount(amount, unit) =>
      if amount != 0 && unit != "" then
        var u := Lower(unit);
        if u == "s" then Some(ParsedTime(Count(RoundDiv(amount, SecondsPerHour)), "h"))
        else if u == "m" then Some(ParsedTime(Count(RoundDiv(amount, MinutesPerHour)), "h"))
        else Some(ParsedTime(Count(amount), u))
      else Some(ParsedTime(Raw(field), "h"))
  }

  /** The unit of an object field with an amount is read without regard to
      case (an object without one is passed on as it came). */
  lemma UnitCaseIgnored(amount: int, unit: string)
    requires amount != 0
    ensures ParseTimeField(Amount(amount, unit)) == ParseTimeField(Amount(amount, Lower(unit)))
  {
    LowerIdempotent(unit);
    assert |Lower(unit)| == |unit|;
  }

  /** Whatever the input, a parsed number is in hours unless the object named
      some other unit, which is then passed on lower-cased. */
  lemma ParsedUnitIsHoursOrLowered(field: RawTime)
    requires ParseTimeField(field).Some?
    ensures var p := ParseTimeField(field).value;
      p.unit == "h" || (field.Amount? && p.unit == Lower(field.unit) && p.unit != "s" && p.unit != "m")
  {
  }

  /** Ninety minutes round to two hours; 7200 seconds are two hours; a bare
      number just above the cutoff is read as seconds, one at the cutoff as hours. */
  lemma ConversionExamples()
    ensures ParseTimeField(Amount(90, "M")) == Some(ParsedTime(Count(2), "h"))
    ensures ParseTimeField(Amount(7200, "s")) == Some(ParsedTime(Count(2), "h"))
    ensures ParseTimeField(Number(10000)) == Some(ParsedTime(Count(10000), "h"))
    ensures ParseTimeField(Number(10800)) == Some(ParsedTime(Count(3), "h"))
  {
    assert Lower("M") == "m";
  }

  /** `fetchCompletionTimes` after the request: nothing when the answer is not ok
      or has no first row, else the first row's three fields, each parsed. */
  function CompletionTimesOf(response: TimesResponse): (r: Option<CompletionTimes>)
    ensures r.Some? <==> response.Rows? && |response.rows| > 0
    ensures r.Some? ==>
      r.value.hastily == ParseTimeField(response.rows[0].hastily) &&
      r.value.normally == ParseTimeField(response.rows[0].normally) &&
      r.value.completely == ParseTimeField(response.rows[0].completely)
  {
    match response
    case NotOk => None
    case Rows(rows) =>
      if |rows| == 0 then None
      else Some(CompletionTimes(
        ParseTimeField(rows[0].hastily),
        ParseTimeField(rows[0].normally),
        ParseTimeField(rows[0].completely)))
  }
}

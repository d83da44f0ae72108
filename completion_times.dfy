/** The "How Long to Beat" panel (src/components/CompletionTimes.tsx): how a
    parsed time is worded, and which rows the panel shows. */
module CompletionTimesView {
  import opened Wrappers
  import opened Text
  import opened TimeParse

  /** A JavaScript number as `Math.round` leaves it: an integer, or `NaN` when
      the value was an object. */
  datatype JsNumber = Finite(n: int) | NaN

  function Rounded(v: TimeValue): JsNumber {
    match v
    case Count(n) => Finite(n)
    case Raw(_) => NaN
  }

  /** `${x}` for a rounded number. */
  function NumberText(x: JsNumber): string {
    match x
    case Finite(n) => IntToString(n)
    case NaN => "NaN"
  }

  /** JavaScript's `%` for a positive divisor: the remainder takes the sign of the dividend. */
  function JsRem(a: int, b: int): (r: int)
    requires b > 0
    ensures a >= 0 ==> 0 <= r < b && r == a % b
    ensures a < 0 ==> -b < r <= 0
  {
    if a >= 0 then a % b else -((-a) % b)
  }

  /** "n word" with an `s` when n > 1. */
  function Counted(n: JsNumber, word: string): string {
    NumberText(n) + " " + word + (if n.Finite? && n.n > 1 then "s" else "")
  }

  /** The seconds wording: hours with optional minutes, or minutes alone. */
  function SecondsText(v: JsNumber): string {
    match v
    case NaN => Counted(NaN, "minute")
    case Finite(n) =>
      var hours := n / SecondsPerHour;
      var minutes := JsRem(n, SecondsPerHour) / 60;
      if hours > 0 then
        Counted(Finite(hours), "hour") + (if minutes > 0 then " " + Counted(Finite(minutes), "minute") else "")
      else Counted(Finite(minutes), "minute")
  }

  /** `formatTime`. */
  function FormatTime(time: Option<ParsedTime>): (r: string)
    ensures time.None? ==> r == "N/A"
    ensures time.Some? && Lower(time.value.unit) == "h" && Rounded(time.value.value) == Finite(1) ==> r == "1 hour"
    ensures time.Some? && Lower(time.value.unit) == "h" && Rounded(time.value.value) != Finite(1) ==>
      r == NumberText(Rounded(time.value.value)) + " hours"
    ensures time.Some? && Lower(time.value.unit) == "m" && Rounded(time.value.value) == Finite(1) ==> r == "1 minute"
    ensures time.Some? && Lower(time.value.unit) == "m" && Rounded(time.value.value) != Finite(1) ==>
      r == NumberText(Rounded(time.value.value)) + " minutes"
    ensures time.Some? && Lower(time.value.unit) == "s" ==> r == SecondsText(Rounded(time.value.value))
    ensures time.Some? && Lower(time.value.unit) !in {"h", "m", "s"} ==>
      r == NumberText(Rounded(time.value.value)) + " " + Lower(time.value.unit)
  {
    match time
    case None => "N/A"
    case Some(t) =>
      var value := Rounded(t.value);
      var unit := Lower(t.unit);
      if unit == "h" then
        if value == Finite(1) then "1 hour" else NumberText(value) + " hours"
      else if unit == "m" then
        if value == Finite(1) then "1 minute" else NumberText(value) + " minutes"
      else if unit == "s" then SecondsText(value)
      else NumberText(value) + " " + unit
  }

  lemma IntToStringSign(a: int)
    ensures |IntToString(a)| > 0 && (IntToString(a)[0] == '-' <==> a < 0)
  {
    if a >= 0 {
      assert IsDigit(NatToString(a)[0]);
    }
  }

  lemma IntToStringInjective(a: int, b: int)
    requires IntToString(a) == IntToString(b)
    ensures a == b
  {
    if a < 0 && b < 0 {
      assert NatToString(-a) == IntToString(a)[1..];
      NatToStringInjective(-a, -b);
    } else if a >= 0 && b >= 0 {
      NatToStringInjective(a, b);
    } else {
      IntToStringSign(a);
      IntToStringSign(b);
      assert false;
    }
  }

  /** Two whole-hour times that read the same hold the same number of hours. */
  lemma HoursWordingInjective(a: int, b: int)
    requires FormatTime(Some(ParsedTime(Count(a), "h"))) == FormatTime(Some(ParsedTime(Count(b), "h")))
    ensures a == b
  {
    var ta, tb := FormatTime(Some(ParsedTime(Count(a), "h"))), FormatTime(Some(ParsedTime(Count(b), "h")));
    assert Lower("h") == "h";
    if a != 1 && b != 1 {
      assert ta == IntToString(a) + " hours" && tb == IntToString(b) + " hours";
      assert IntToString(a) == ta[..|ta| - 6];
      assert IntToString(b) == tb[..|tb| - 6];
      IntToStringInjective(a, b);
    }
  }

  /** A non-negative number of seconds is shown as whole hours and whole
      minutes: the largest such split that does not exceed it. */
  lemma SecondsBreakdown(v: nat)
    ensures var hours, minutes := v / SecondsPerHour, JsRem(v, SecondsPerHour) / 60;
      0 <= minutes < 60 &&
      SecondsPerHour * hours + 60 * minutes <= v < SecondsPerHour * hours + 60 * minutes + 60 &&
      FormatTime(Some(ParsedTime(Count(v), "s"))) ==
        if hours > 0 then
          Counted(Finite(hours), "hour") + (if minutes > 0 then " " + Counted(Finite(minutes), "minute") else "")
        else Counted(Finite(minutes), "minute")
  {
    assert Lower("s") == "s";
    var rem := v % SecondsPerHour;
    assert v == SecondsPerHour * (v / SecondsPerHour) + rem;
    assert rem == 60 * (rem / 60) + rem % 60;
  }

  /** One shown row of the panel: its caption and its wording. */
  datatype Row = Row(caption: string, text: string)

  /** What `CompletionTimes` renders: nothing when all three times are absent,
      else one row per present time, in the order main story, extras, completionist. */
  function Panel(times: CompletionTimes): (r: Option<seq<Row>>)
    ensures r.None? <==> (times.hastily.None? && times.normally.None? && times.completely.None?)
    ensures r.Some? ==>
      |r.value| == (if times.hastily.Some? then 1 else 0) + (if times.normally.Some? then 1 else 0)
                   + (if times.completely.Some? then 1 else 0)
    ensures r.Some? ==> forall i :: 0 <= i < |r.value| ==> r.value[i].text != "N/A"
  {
    if times.hastily.None? && times.normally.None? && times.completely.None? then None
    else
      Some(RowIf("Main Story", times.hastily) + RowIf("Main + Extras", times.normally)
           + RowIf("Completionist", times.completely))
  }

  function RowIf(caption: string, time: Option<ParsedTime>): (r: seq<Row>)
    ensures |r| == if time.Some? then 1 else 0
    ensures forall i :: 0 <= i < |r| ==> r[i] == Row(caption, FormatTime(time)) && r[i].text != "N/A"
  {
    if time.Some? then
      NotAvailableOnlyForMissing(time.value);
      [Row(caption, FormatTime(time))]
    else []
  }

  /** "N/A" is reserved for a missing time: no present time is worded that way. */
  lemma NotAvailableOnlyForMissing(t: ParsedTime)
    ensures FormatTime(Some(t)) != "N/A"
  {
    var r := FormatTime(Some(t));
    var value := Rounded(t.value);
    var unit := Lower(t.unit);
    if unit == "h" || unit == "m" {
      if value != Finite(1) {
        assert r[|r| - 1] == 's';
      }
    } else if unit == "s" {
      assert r[|r| - 1] == 'r' || r[|r| - 1] == 'e' || r[|r| - 1] == 's';
    } else {
      assert |NumberText(value)| >= 1;
      assert r == NumberText(value) + " " + unit;
      assert r[|NumberText(value)|] == ' ';
    }
  }
}

/** The age-rating panel (src/components/AgeRatingDisplay.tsx): the badge
    colour of a rating, the one-word summary label chosen from the ratings by
    board priority, and what the panel shows. */
module AgeRatingDisplay {
  import opened Wrappers
  import opened Text

  /** A rating as the panel receives it; the board name and the rating text
      may be absent. */
  datatype DisplayRating = DisplayRating(organization: Option<string>, rating: Option<string>)

  // ----- Badge colour -----

  const Red := "#c0392b"
  const Orange := "#f39c12"
  const Green := "#27ae60"
  const Neutral := "#34495e"

  predicate IsMatureCode(r: string) {
    r == "M" || r == "18" || r == "Z" || r == "R18+" || Contains(r, "EIGHTEEN")
  }

  predicate IsTeenCode(r: string) {
    r == "T" || r == "16" || r == "15+" || Contains(r, "TEEN")
  }

  predicate IsEveryoneCode(r: string) {
    r == "E" || r == "E10+" || r == "12" || r == "6"
  }

  /** `getRatingColor`: mature codes are red, teen codes orange, everyone codes
      green, anything else neutral; the codes are compared upper-cased and
      earlier groups win. */
  function RatingColor(rating: string): (c: string)
    ensures IsMatureCode(Upper(rating)) <==> c == Red
    ensures c == Orange <==> !IsMatureCode(Upper(rating)) && IsTeenCode(Upper(rating))
    ensures c == Green <==> !IsMatureCode(Upper(rating)) && !IsTeenCode(Upper(rating)) && IsEveryoneCode(Upper(rating))
    ensures c == Neutral <==> !IsMatureCode(Upper(rating)) && !IsTeenCode(Upper(rating)) && !IsEveryoneCode(Upper(rating))
  {
    var r := Upper(rating);
    if IsMatureCode(r) then Red
    else if IsTeenCode(r) then Orange
    else if IsEveryoneCode(r) then Green
    else Neutral
  }

  /** Upper-casing forgets the case of the input, so the colour does too. */
  lemma ColorIgnoresCase(rating: string)
    ensures RatingColor(Lower(rating)) == RatingColor(rating)
  {
    assert Upper(Lower(rating)) == Upper(rating) by {
      forall i | 0 <= i < |rating|
        ensures UpperChar(LowerChar(rating[i])) == UpperChar(rating[i])
      {
      }
    }
  }

  /** Any rating text naming "teen" is orange, except "eighteen", which is red
      because the mature group is checked first. */
  lemma EighteenBeatsTeen()
    ensures RatingColor("eighteen") == Red
    ensures RatingColor("Teen") == Orange
  {
    assert Upper("eighteen") == "EIGHTEEN";
    assert OccursAt("EIGHTEEN", "EIGHTEEN", 0);
    assert Upper("Teen") == "TEEN";
    assert OccursAt("TEEN", "TEEN", 0);
    assert !Contains("TEEN", "EIGHTEEN");
  }

  // ----- Choosing the rating to summarise -----

  const Priorities: seq<string> := ["ESRB", "PEGI", "CERO", "USK", "GRAC", "CLASSIND", "ACB"]

  /** The rating's board name, upper-cased, contains `org`. */
  predicate FromBoard(r: DisplayRating, org: string) {
    r.organization.Some? && Contains(Upper(r.organization.value), org)
  }

  /** `find`: the index of the first rating from `org`, or `|rs|` when none is. */
  function FindBoard(rs: seq<DisplayRating>, org: string): (i: nat)
    ensures i <= |rs|
    ensures forall j :: 0 <= j < i ==> !FromBoard(rs[j], org)
    ensures i < |rs| ==> FromBoard(rs[i], org)
  {
    if rs == [] then 0
    else if FromBoard(rs[0], org) then 0
    else 1 + FindBoard(rs[1..], org)
  }

  /** The first board in `orgs` that some rating comes from, as an index into
      `orgs`, or `|orgs|` when there is none. */
  function FirstBoard(rs: seq<DisplayRating>, orgs: seq<string>): (k: nat)
    ensures k <= |orgs|
    ensures forall j :: 0 <= j < k ==> FindBoard(rs, orgs[j]) == |rs|
    ensures k < |orgs| ==> FindBoard(rs, orgs[k]) < |rs|
  {
    if orgs == [] then 0
    else if FindBoard(rs, orgs[0]) < |rs| then 0
    else 1 + FirstBoard(rs, orgs[1..])
  }

  /** The rating summarised: the first rating of the first board in the
      priority list that has one, else the first rating. */
  function ChooseRating(rs: seq<DisplayRating>): (i: nat)
    requires |rs| > 0
    ensures i < |rs|
  {
    var k := FirstBoard(rs, Priorities);
    if k < |Priorities| then FindBoard(rs, Priorities[k]) else 0
  }

  /** The choice, stated outright: when some rating comes from a listed board,
      the chosen one is the first rating of the highest-priority such board;
      otherwise it is the first rating. */
  lemma ChooseRatingByPriority(rs: seq<DisplayRating>)
    requires |rs| > 0
    ensures var i := ChooseRating(rs);
      (exists k | 0 <= k < |Priorities| :: FromBoard(rs[i], Priorities[k]) &&
         (forall j :: 0 <= j < i ==> !FromBoard(rs[j], Priorities[k])) &&
         (forall m, j :: 0 <= m < k && 0 <= j < |rs| ==> !FromBoard(rs[j], Priorities[m])))
      || (i == 0 && forall m, j :: 0 <= m < |Priorities| && 0 <= j < |rs| ==> !FromBoard(rs[j], Priorities[m]))
  {
    var k := FirstBoard(rs, Priorities);
    forall m, j | 0 <= m < k && 0 <= j < |rs|
      ensures !FromBoard(rs[j], Priorities[m])
    {
      assert FindBoard(rs, Priorities[m]) == |rs|;
    }
  }

  /** An ESRB rating anywhere in the list is the one summarised (the first of them). */
  lemma EsrbPreferred(rs: seq<DisplayRating>, e: nat)
    requires e < |rs| && FromBoard(rs[e], "ESRB")
    ensures FromBoard(rs[ChooseRating(rs)], "ESRB") && ChooseRating(rs) <= e
  {
    assert FindBoard(rs, Priorities[0]) <= e;
  }

  // ----- The summary label -----

  /** The index of the first ASCII digit of `s` at or after `from`, or `|s|`. */
  function FirstDigitFrom(s: string, from: nat): (i: nat)
    requires from <= |s|
    ensures from <= i <= |s|
    ensures forall j :: from <= j < i ==> !IsDigit(s[j])
    ensures i < |s| ==> IsDigit(s[i])
    decreases |s| - from
  {
    if from == |s| || IsDigit(s[from]) then from else FirstDigitFrom(s, from + 1)
  }

  /** The end of the run of digits starting at `from`. */
  function DigitRunEnd(s: string, from: nat): (i: nat)
    requires from <= |s|
    ensures from <= i <= |s|
    ensures forall j :: from <= j < i ==> IsDigit(s[j])
    ensures i < |s| ==> !IsDigit(s[i])
    decreases |s| - from
  {
    if from < |s| && IsDigit(s[from]) then DigitRunEnd(s, from + 1) else from
  }

  /** `s.match(/\d+/)[0]`: the first maximal run of digits, if any. */
  function FirstDigitRun(s: string): (r: Option<string>)
    ensures r.None? <==> forall j :: 0 <= j < |s| ==> !IsDigit(s[j])
    ensures r.Some? ==> |r.value| > 0 && forall j :: 0 <= j < |r.value| ==> IsDigit(r.value[j])
  {
    var start := FirstDigitFrom(s, 0);
    if start == |s| then None else Some(s[start..DigitRunEnd(s, start)])
  }

  /** The run is where the definition says: no digit precedes it, and it is
      followed by a non-digit or the end. */
  lemma FirstDigitRunPlace(s: string)
    requires FirstDigitRun(s).Some?
    ensures var d := FirstDigitRun(s).value;
      exists k | 0 <= k <= |s| :: OccursAt(s, d, k) && (forall j :: 0 <= j < k ==> !IsDigit(s[j])) &&
        (k + |d| == |s| || !IsDigit(s[k + |d|]))
  {
    var k := FirstDigitFrom(s, 0);
    assert OccursAt(s, FirstDigitRun(s).value, k);
  }

  /** "+" followed by one or more digits. */
  predicate PlusDigits(s: string) {
    |s| > 1 && s[0] == '+' && forall j :: 1 <= j < |s| ==> IsDigit(s[j])
  }

  /** The first ten label rules, tried in order: each looks for a word in the
      lower-cased rating text, and the first word found decides. */
  function WordLabel(text: string): (r: Option<string>)
    ensures Contains(text, "everyone 10") ==> r == Some("+10")
    ensures !Contains(text, "everyone 10") && Contains(text, "everyone") ==> r == Some("Everyone")
    ensures !Contains(text, "everyone 10") && !Contains(text, "everyone") && Contains(text, "teen") ==>
      r == Some("+13")
    ensures !Contains(text, "everyone 10") && !Contains(text, "everyone") && !Contains(text, "teen") &&
            Contains(text, "mature") ==>
      r == Some("+17")
    ensures !Contains(text, "everyone 10") && !Contains(text, "everyone") && !Contains(text, "teen") &&
            !Contains(text, "mature") && (Contains(text, "adults only") || Contains(text, "adult")) ==>
      r == Some("+18")
    ensures !Contains(text, "everyone 10") && !Contains(text, "everyone") && !Contains(text, "teen") &&
            !Contains(text, "mature") && !Contains(text, "adults only") && !Contains(text, "adult") &&
            Contains(text, "pegi 3") ==>
      r == Some("+3")
    ensures !Contains(text, "everyone 10") && !Contains(text, "everyone") && !Contains(text, "teen") &&
            !Contains(text, "mature") && !Contains(text, "adults only") && !Contains(text, "adult") &&
            !Contains(text, "pegi 3") && Contains(text, "pegi 7") ==>
      r == Some("+7")
    ensures !Contains(text, "everyone 10") && !Contains(text, "everyone") && !Contains(text, "teen") &&
            !Contains(text, "mature") && !Contains(text, "adults only") && !Contains(text, "adult") &&
            !Contains(text, "pegi 3") && !Contains(text, "pegi 7") && Contains(text, "pegi 12") ==>
      r == Some("+12")
    ensures !Contains(text, "everyone 10") && !Contains(text, "everyone") && !Contains(text, "teen") &&
            !Contains(text, "mature") && !Contains(text, "adults only") && !Contains(text, "adult") &&
            !Contains(text, "pegi 3") && !Contains(text, "pegi 7") && !Contains(text, "pegi 12") &&
            Contains(text, "pegi 16") ==>
      r == Some("+16")
    ensures !Contains(text, "everyone 10") && !Contains(text, "everyone") && !Contains(text, "teen") &&
            !Contains(text, "mature") && !Contains(text, "adults only") && !Contains(text, "adult") &&
            !Contains(text, "pegi 3") && !Contains(text, "pegi 7") && !Contains(text, "pegi 12") &&
            !Contains(text, "pegi 16") && Contains(text, "pegi 18") ==>
      r == Some("+18")
    ensures r.None? <==>
      !Contains(text, "everyone 10") && !Contains(text, "everyone") && !Contains(text, "teen") &&
      !Contains(text, "mature") && !Contains(text, "adults only") && !Contains(text, "adult") &&
      !Contains(text, "pegi 3") && !Contains(text, "pegi 7") && !Contains(text, "pegi 12") &&
      !Contains(text, "pegi 16") && !Contains(text, "pegi 18")
  {
    if Contains(text, "everyone 10") then Some("+10")
    else if Contains(text, "everyone") then Some("Everyone")
    else if Contains(text, "teen") then Some("+13")
    else if Contains(text, "mature") then Some("+17")
    else if Contains(text, "adults only") || Contains(text, "adult") then Some("+18")
    else if Contains(text, "pegi 3") then Some("+3")
    else if Contains(text, "pegi 7") then Some("+7")
    else if Contains(text, "pegi 12") then Some("+12")
    else if Contains(text, "pegi 16") then Some("+16")
    else if Contains(text, "pegi 18") then Some("+18")
    else None
  }

  /** The short codes the label rules compare the whole text with. */
  const LabelCodes := {"e", "e10+", "e 10+", "t", "m", "ao"}

  /** The last six label rules, tried when no word rule applies: five compare
      the whole text with a short code, the last takes the first digit run. */
  function CodeLabel(text: string): (r: Option<string>)
    ensures text == "e" ==> r == Some("Everyone")
    ensures text == "e10+" || text == "e 10+" ==> r == Some("+10")
    ensures text == "t" ==> r == Some("+13")
    ensures text == "m" ==> r == Some("+17")
    ensures text == "ao" ==> r == Some("+18")
    ensures text !in LabelCodes && FirstDigitRun(text).Some? ==> r == Some("+" + FirstDigitRun(text).value)
    ensures r.None? <==> text !in LabelCodes && FirstDigitRun(text).None?
  {
    if text == "e" then Some("Everyone")
    else if text == "e10+" || text == "e 10+" then Some("+10")
    else if text == "t" then Some("+13")
    else if text == "m" then Some("+17")
    else if text == "ao" then Some("+18")
    else if FirstDigitRun(text).Some? then Some("+" + FirstDigitRun(text).value)
    else None
  }

  /** The label mapping on the lower-cased rating text, or `None` when no
      rule applies: the word rules first, then the code rules. */
  function MapLabel(text: string): (r: Option<string>)
    ensures WordLabel(text).Some? ==> r == WordLabel(text)
    ensures WordLabel(text).None? ==> r == CodeLabel(text)
    ensures r.None? ==> FirstDigitRun(text).None?
    ensures r.Some? ==> r.value == "Everyone" || PlusDigits(r.value)
  {
    if WordLabel(text).Some? then WordLabel(text) else CodeLabel(text)
  }

  /** `getSimpleAgeRating`: nothing for an absent or empty list; otherwise the
      mapped label of the chosen rating, else its own text when non-empty. */
  function SimpleAgeRating(ratings: Option<seq<DisplayRating>>): (r: Option<string>)
    ensures ratings.None? || |ratings.value| == 0 ==> r.None?
    ensures ratings.Some? && |ratings.value| > 0 ==>
      var text := ratings.value[ChooseRating(ratings.value)].rating.GetOr("");
      (MapLabel(Lower(text)).Some? ==> r == MapLabel(Lower(text))) &&
      (MapLabel(Lower(text)).None? ==> r == if text != "" then Some(text) else None)
    ensures r.Some? ==> r.value != ""
  {
    if ratings.None? || |ratings.value| == 0 then None
    else
      var best := ratings.value[ChooseRating(ratings.value)];
      var text := best.rating.GetOr("");
      match MapLabel(Lower(text))
      case Some(l) => Some(l)
      case None => if text != "" then Some(text) else None
  }

  /** A label the rules do not recognise and that has no digits comes back
      verbatim, in its original case. */
  lemma UnmappedLabelVerbatim(rs: seq<DisplayRating>)
    requires |rs| > 0
    requires rs[ChooseRating(rs)].rating.Some? && rs[ChooseRating(rs)].rating.value != ""
    requires MapLabel(Lower(rs[ChooseRating(rs)].rating.value)).None?
    ensures SimpleAgeRating(Some(rs)) == rs[ChooseRating(rs)].rating
  {
  }

  /** Every label the summary can produce: a fixed word, "+" and digits, or
      the chosen rating's own text. */
  lemma SimpleLabelShapes(rs: seq<DisplayRating>)
    requires |rs| > 0 && SimpleAgeRating(Some(rs)).Some?
    ensures var l := SimpleAgeRating(Some(rs)).value;
      l == "Everyone" || PlusDigits(l) ||
      Some(l) == rs[ChooseRating(rs)].rating
  {
  }

  /** "Everyone 10+" is summarised as "+10", not as "Everyone". */
  lemma EveryoneTenFirst()
    ensures SimpleAgeRating(Some([DisplayRating(Some("ESRB"), Some("Everyone 10+"))])) == Some("+10")
  {
    var rs := [DisplayRating(Some("ESRB"), Some("Everyone 10+"))];
    assert Upper("ESRB") == "ESRB" && OccursAt("ESRB", "ESRB", 0);
    assert FindBoard(rs, "ESRB") == 0;
    assert ChooseRating(rs) == 0;
    assert Lower("Everyone 10+") == "everyone 10+";
    assert OccursAt("everyone 10+", "everyone 10", 0);
  }

  // ----- The panel -----

  /** One badge: the rating text (or "N/A"), its colour and its board. */
  datatype Badge = Badge(value: string, color: string, organization: Option<string>)

  datatype Panel = Panel(summary: Option<string>, badges: seq<Badge>)

  /** `AgeRatingDisplay`: nothing for an absent or empty list; otherwise the
      summary and one badge per rating, in order. */
  function RenderPanel(ratings: Option<seq<DisplayRating>>): (p: Option<Panel>)
    ensures p.None? <==> ratings.None? || |ratings.value| == 0
    ensures p.Some? ==> p.value.summary == SimpleAgeRating(ratings) && |p.value.badges| == |ratings.value|
    ensures p.Some? ==> forall i :: 0 <= i < |p.value.badges| ==>
      p.value.badges[i].value != "" &&
      p.value.badges[i].color == RatingColor(p.value.badges[i].value) &&
      p.value.badges[i].organization == ratings.value[i].organization &&
      (p.value.badges[i].value == "N/A" <==> ratings.value[i].rating.GetOr("") in {"", "N/A"}) &&
      (ratings.value[i].rating.GetOr("") != "" ==> p.value.badges[i].value == ratings.value[i].rating.value)
  {
    if ratings.None? || |ratings.value| == 0 then None
    else
      var rs := ratings.value;
      Some(Panel(SimpleAgeRating(ratings), seq(|rs|, i requires 0 <= i < |rs| => BadgeOf(rs[i]))))
  }

  /** One rating's badge: its own text when it has one, else "N/A". */
  function BadgeOf(r: DisplayRating): (b: Badge)
    ensures b.value != "" && b.color == RatingColor(b.value) && b.organization == r.organization
    ensures b.value == "N/A" <==> r.rating.GetOr("") in {"", "N/A"}
    ensures r.rating.GetOr("") != "" ==> b.value == r.rating.value
  {
    var value := if r.rating.GetOr("") != "" then r.rating.value else "N/A";
    Badge(value, RatingColor(value), r.organization)
  }
}

/** Search-as-you-type ranking (src/components/SearchInput.tsx): the title
    similarity tiers, the year and recency boosts, and the stable in-place
    sort by non-increasing relevance followed by the top seven. */
module SearchRank {
  import opened Wrappers
  import opened Text

  // ----- Title similarity -----

  const ExactTitle := 10000
  const SubstringTitle := 5000
  const AllWordsTitle := 2000

  /** Every word is contained in `name`. */
  predicate AllWordsIn(words: seq<string>, name: string) {
    forall i | 0 <= i < |words| :: Contains(name, words[i])
  }

  /** `titleSimilarity`: on the trimmed, lower-cased strings, 10000 for equal
      titles, else 5000 when the name contains the query, else 2000 when it
      contains every space-separated word of the query, else 0. */
  function TitleSimilarity(query: string, name: string): (r: int)
    ensures var q := Lower(Trim(query)); var n := Lower(Trim(name));
      (r == ExactTitle <==> n == q) &&
      (r == SubstringTitle <==> n != q && Contains(n, q)) &&
      (r == AllWordsTitle <==> !Contains(n, q) && AllWordsIn(Split(q, ' '), n)) &&
      (r == 0 <==> !Contains(n, q) && !AllWordsIn(Split(q, ' '), n))
  {
    var q := Lower(Trim(query));
    var n := Lower(Trim(name));
    assert n == q ==> OccursAt(n, q, 0);
    if n == q then ExactTitle
    else if Contains(n, q) then SubstringTitle
    else if AllWordsIn(Split(q, ' '), n) then AllWordsTitle
    else 0
  }

  /** A query without spaces never lands in the all-words tier: its only word
      is the query itself. */
  lemma OneWordSkipsWordTier(query: string, name: string)
    requires ' ' !in Lower(Trim(query))
    ensures TitleSimilarity(query, name) != AllWordsTitle
  {
    var q := Lower(Trim(query));
    assert Split(q, ' ') == [q];
    if AllWordsIn([q], Lower(Trim(name))) {
      assert Contains(Lower(Trim(name)), [q][0]);
    }
  }

  /** A blank query is contained in every name, so it scores at least 5000. */
  lemma BlankQueryMatches(query: string, name: string)
    requires Trim(query) == ""
    ensures TitleSimilarity(query, name) >= SubstringTitle
  {
    ContainsEmpty(Lower(Trim(name)));
  }

  /** Case and surrounding whitespace do not matter. */
  lemma SimilarityIgnoresCaseOfName(query: string, name: string)
    requires Trim(name) == name
    ensures TitleSimilarity(query, Lower(name)) == TitleSimilarity(query, name)
  {
    LowerIdempotent(name);
    TrimShape(name);
    var l := Lower(name);
    assert l == [] || (!IsSpace(l[0]) && !IsSpace(l[|l| - 1])) by {
      if name != [] {
        assert !IsSpace(name[0]) && !IsSpace(name[|name| - 1]);
      }
    }
    TrimFixed(l);
  }

  // ----- Year and recency boosts -----

  const YearBoost := 3000

  function DigitValue(c: char): int { c as int - '0' as int }

  /** A year pattern `(19|20)\d\d` starts at index `i`. */
  predicate YearAt(s: string, i: nat) {
    i + 4 <= |s| && (s[i..i + 2] == "19" || s[i..i + 2] == "20") && IsDigit(s[i + 2]) && IsDigit(s[i + 3])
  }

  /** The index of the first year pattern at or after `from`, or `|s|`. */
  function FirstYearFrom(s: string, from: nat): (i: nat)
    requires from <= |s|
    ensures from <= i <= |s|
    ensures i < |s| ==> YearAt(s, i)
    ensures forall j :: from <= j < i ==> !YearAt(s, j)
    decreases |s| - from
  {
    if from == |s| || YearAt(s, from) then from else FirstYearFrom(s, from + 1)
  }

  /** The four characters of the year pattern at `i`: all of them digits. */
  function YearText(s: string, i: nat): (t: string)
    requires YearAt(s, i)
    ensures |t| == 4 && t == s[i..i + 4]
    ensures forall k :: 0 <= k < |t| ==> IsDigit(t[k])
  {
    assert s[i..i + 2][0] == s[i] && s[i..i + 2][1] == s[i + 1];
    s[i..i + 4]
  }

  /** `parseInt` of the first year pattern in the query, if there is one. */
  function QueryYear(query: string): (y: Option<int>)
    ensures y.None? <==> forall j :: 0 <= j < |query| ==> !YearAt(query, j)
    ensures y.Some? ==> 1900 <= y.value <= 2099
    ensures y.Some? ==>
              var i := FirstYearFrom(query, 0);
              YearAt(query, i) && (forall j :: 0 <= j < i ==> !YearAt(query, j)) &&
              y.value == DigitsValue(YearText(query, i))
  {
    var i := FirstYearFrom(query, 0);
    if i == |query| then None
    else
      assert YearAt(query, i);
      var century := if query[i + 1] == '9' then 1900 else 2000;
      var year := century + 10 * DigitValue(query[i + 2]) + DigitValue(query[i + 3]);
      var t := YearText(query, i);
      assert t[..2] == query[i..i + 2] && t[2] == query[i + 2] && t[3] == query[i + 3];
      assert t[0] == t[..2][0] && t[1] == t[..2][1];
      DigitsValueFour(t);
      Some(year)
  }

  /** The rendering of a year from 1900 to 2099 is a year pattern. */
  lemma RenderedYearAt(year: nat)
    requires 1900 <= year <= 2099
    ensures |NatToString(year)| == 4 && YearAt(NatToString(year), 0)
  {
    var s := NatToString(year);
    var hundreds := NatToString(year / 100);
    assert s == NatToString(year / 10) + [DigitChar(year % 10)];
    assert NatToString(year / 10) == hundreds + [DigitChar(year / 10 % 10)];
    assert hundreds == NatToString(year / 1000) + [DigitChar(year / 100 % 10)];
    if year < 2000 {
      assert year / 1000 == 1 && year / 100 % 10 == 9;
      assert hundreds == "19";
    } else {
      assert year / 1000 == 2 && year / 100 % 10 == 0;
      assert hundreds == "20";
    }
    assert s[0..2] == hundreds;
  }

  /** A query that starts with a year from 1900 to 2099 names that year,
      whatever follows it. */
  lemma LeadingYearRead(year: nat, rest: string)
    requires 1900 <= year <= 2099
    ensures QueryYear(NatToString(year) + rest) == Some(year)
  {
    var s := NatToString(year);
    var q := s + rest;
    RenderedYearAt(year);
    assert q[0..2] == s[0..2] && q[2] == s[2] && q[3] == s[3];
    assert YearAt(q, 0);
    assert FirstYearFrom(q, 0) == 0;
    assert YearText(q, 0) == s;
    NatToStringRoundTrip(year);
  }

  /** 3000 when the query names the game's release year, else 0. */
  function YearBoostOf(query: string, releaseYear: Option<int>): (b: int)
    ensures b == YearBoost <==> QueryYear(query).Some? && releaseYear == QueryYear(query)
    ensures b != YearBoost ==> b == 0
  {
    if QueryYear(query).Some? && releaseYear.Some? && QueryYear(query).value == releaseYear.value then YearBoost else 0
  }

  /** Only the first year in the query counts. */
  lemma FirstYearOnly()
    ensures QueryYear("2001 vs 1999") == Some(2001)
    ensures YearBoostOf("2001 vs 1999", Some(1999)) == 0
  {
    assert YearAt("2001 vs 1999", 0);
  }

  /** The recency bonus by years since release: 2000 up to one year, 1000 up
      to three, 500 up to five, else 0; nothing for an undated game. */
  function RecencyBonus(yearsSinceRelease: Option<int>): (b: int)
    ensures yearsSinceRelease.None? ==> b == 0
    ensures yearsSinceRelease.Some? ==>
      var y := yearsSinceRelease.value;
      (y <= 1 ==> b == 2000) && (1 < y <= 3 ==> b == 1000) && (3 < y <= 5 ==> b == 500) && (5 < y ==> b == 0)
  {
    match yearsSinceRelease
    case None => 0
    case Some(y) => if y <= 1 then 2000 else if y <= 3 then 1000 else if y <= 5 then 500 else 0
  }

  /** The bonus never grows as a game gets older. */
  lemma RecencyMonotone(a: int, b: int)
    requires a <= b
    ensures RecencyBonus(Some(b)) <= RecencyBonus(Some(a))
  {
  }

  // ----- Relevance -----

  /** A search result. `engagement` is the rounded weighted sum of the
      popularity counters; `releaseYear` is absent for an undated game. */
  datatype SearchGame = SearchGame(name: string, releaseYear: Option<int>, engagement: int)

  /** `calculateRelevanceScore`, with the current year as a parameter. */
  function RelevanceScore(g: SearchGame, query: string, currentYear: int): (s: int)
    ensures s == TitleSimilarity(query, g.name) + YearBoostOf(query, g.releaseYear) + g.engagement +
      RecencyBonus(if g.releaseYear.Some? then Some(currentYear - g.releaseYear.value) else None)
  {
    var years := if g.releaseYear.Some? then Some(currentYear - g.releaseYear.value) else None;
    TitleSimilarity(query, g.name) + YearBoostOf(query, g.releaseYear) + g.engagement + RecencyBonus(years)
  }

  /** With equal popularity and age, an exact title outranks any inexact one. */
  lemma ExactTitleWins(query: string, a: SearchGame, b: SearchGame, currentYear: int)
    requires Lower(Trim(a.name)) == Lower(Trim(query)) && Lower(Trim(b.name)) != Lower(Trim(query))
    requires a.releaseYear == b.releaseYear && a.engagement == b.engagement
    ensures RelevanceScore(a, query, currentYear) > RelevanceScore(b, query, currentYear)
  {
  }

  // ----- Sorting -----

  /** Non-increasing by `key`. */
  ghost predicate SortedByKey(s: seq<SearchGame>, key: SearchGame -> int) {
    forall i, j :: 0 <= i < j < |s| ==> key(s[i]) >= key(s[j])
  }

  /** The first position whose key is smaller than `k`, or `|s|`. */
  function FirstSmaller(s: seq<SearchGame>, key: SearchGame -> int, k: int): (j: nat)
    ensures j <= |s|
    ensures forall i :: 0 <= i < j ==> key(s[i]) >= k
    ensures j < |s| ==> key(s[j]) < k
  {
    if s == [] || key(s[0]) < k then 0 else 1 + FirstSmaller(s[1..], key, k)
  }

  /** Stable insertion: `x` goes after every element whose key is at least its own. */
  function Insert(x: SearchGame, s: seq<SearchGame>, key: SearchGame -> int): seq<SearchGame> {
    var j := FirstSmaller(s, key, key(x));
    s[..j] + [x] + s[j..]
  }

  /** The stable sort by non-increasing key that `Array.prototype.sort`
      performs with the comparator `key(b) - key(a)`. */
  function SortByKey(s: seq<SearchGame>, key: SearchGame -> int): seq<SearchGame> {
    if s == [] then [] else Insert(s[|s| - 1], SortByKey(s[..|s| - 1], key), key)
  }

  /** Where each element of an insertion ends up. */
  lemma InsertIndex(x: SearchGame, s: seq<SearchGame>, key: SearchGame -> int)
    ensures var j := FirstSmaller(s, key, key(x)); var r := Insert(x, s, key);
      |r| == |s| + 1 && r[j] == x &&
      (forall k :: 0 <= k < j ==> r[k] == s[k]) &&
      (forall k :: j < k < |r| ==> r[k] == s[k - 1])
  {
  }

  lemma InsertSorted(x: SearchGame, s: seq<SearchGame>, key: SearchGame -> int)
    requires SortedByKey(s, key)
    ensures SortedByKey(Insert(x, s, key), key)
  {
    var j := FirstSmaller(s, key, key(x));
    var r := Insert(x, s, key);
    InsertIndex(x, s, key);
    forall a, b | 0 <= a < b < |r|
      ensures key(r[a]) >= key(r[b])
    {
      var ka := if a < j then key(s[a]) else if a == j then key(x) else key(s[a - 1]);
      var kb := if b < j then key(s[b]) else if b == j then key(x) else key(s[b - 1]);
      assert key(r[a]) == ka && key(r[b]) == kb;
      if a == j && b > j {
        assert key(s[j]) < key(x);
        assert j == b - 1 || key(s[j]) >= key(s[b - 1]);
      }
    }
  }

  lemma InsertPermutes(x: SearchGame, s: seq<SearchGame>, key: SearchGame -> int)
    ensures multiset(Insert(x, s, key)) == multiset(s) + multiset{x}
  {
    var j := FirstSmaller(s, key, key(x));
    assert s == s[..j] + s[j..];
  }

  /** The sort yields a non-increasing permutation of its input. */
  lemma {:induction false} SortByKeySorted(s: seq<SearchGame>, key: SearchGame -> int)
    ensures SortedByKey(SortByKey(s, key), key)
    ensures multiset(SortByKey(s, key)) == multiset(s)
    ensures |SortByKey(s, key)| == |s|
  {
    if s != [] {
      SortByKeySorted(s[..|s| - 1], key);
      InsertSorted(s[|s| - 1], SortByKey(s[..|s| - 1], key), key);
      InsertPermutes(s[|s| - 1], SortByKey(s[..|s| - 1], key), key);
      assert s == s[..|s| - 1] + [s[|s| - 1]];
    }
  }

  /** The array during one pass of the insertion sort, as a list: `x` is
      moving left from position `i` and has reached `j`; before `j` sits the
      sorted prefix `s` unchanged, between `j` and `i` its elements shifted
      right by one (all with smaller keys than `x`), after `i` the untouched
      `tail`. Position `j` itself holds a stale copy. */
  ghost predicate Shifting(r: seq<SearchGame>, s: seq<SearchGame>, x: SearchGame, key: SearchGame -> int,
                           j: nat, tail: seq<SearchGame>) {
    j <= |s| && |r| == |s| + 1 + |tail| && r[|s| + 1..] == tail &&
    (forall k :: 0 <= k < j ==> r[k] == s[k]) &&
    (forall k :: j < k <= |s| ==> r[k] == s[k - 1]) &&
    (forall k :: j <= k < |s| ==> key(s[k]) < key(x))
  }

  /** Moving `x` one place left past an element with a smaller key. */
  lemma ShiftStep(r: seq<SearchGame>, s: seq<SearchGame>, x: SearchGame, key: SearchGame -> int,
                  j: nat, tail: seq<SearchGame>)
    requires Shifting(r, s, x, key, j, tail) && 0 < j && key(r[j - 1]) < key(x)
    ensures Shifting(r[j := r[j - 1]], s, x, key, j - 1, tail)
  {
    var r' := r[j := r[j - 1]];
    assert r'[|s| + 1..] == r[|s| + 1..];
  }

  /** Writing `x` where the scan stopped completes the insertion. */
  lemma ShiftDone(r: seq<SearchGame>, s: seq<SearchGame>, x: SearchGame, key: SearchGame -> int,
                  j: nat, tail: seq<SearchGame>)
    requires Shifting(r, s, x, key, j, tail) && SortedByKey(s, key)
    requires j == 0 || key(r[j - 1]) >= key(x)
    ensures r[j := x][..|s| + 1] == Insert(x, s, key)
    ensures r[j := x][|s| + 1..] == tail
  {
    var r' := r[j := x];
    assert r'[..|s| + 1] == s[..j] + [x] + s[j..] by {
      forall k | 0 <= k <= |s|
        ensures r'[..|s| + 1][k] == (s[..j] + [x] + s[j..])[k]
      {
      }
    }
    assert r'[|s| + 1..] == r[|s| + 1..];
  }

  /** One pass of the insertion sort: `a[i]` moves left past every element
      of the sorted prefix whose key is smaller. */
  method InsertLast(a: array<SearchGame>, i: nat, key: SearchGame -> int)
    requires i < a.Length && SortedByKey(a[..i], key)
    modifies a
    ensures a[..i + 1] == Insert(old(a[i]), old(a[..i]), key)
    ensures a[i + 1..] == old(a[i + 1..])
  {
    ghost var sorted := a[..i];
    ghost var tail := a[i + 1..];
    var x := a[i];
    var j := i;
    assert Shifting(a[..], sorted, x, key, j, tail);
    while j > 0 && key(a[j - 1]) < key(x)
      invariant j <= i
      invariant Shifting(a[..], sorted, x, key, j, tail)
    {
      ShiftStep(a[..], sorted, x, key, j, tail);
      a[j] := a[j - 1];
      j := j - 1;
    }
    ShiftDone(a[..], sorted, x, key, j, tail);
    a[j] := x;
  }

  /** Sorting one more element of the input inserts it into the sorted prefix. */
  lemma SortPrefixStep(input: seq<SearchGame>, i: nat, key: SearchGame -> int)
    requires i < |input|
    ensures SortedByKey(SortByKey(input[..i], key), key)
    ensures SortByKey(input[..i + 1], key) == Insert(input[i], SortByKey(input[..i], key), key)
  {
    SortByKeySorted(input[..i], key);
    assert input[..i + 1][..i] == input[..i];
  }

  /** `results.sort(...)`: a stable insertion sort, in place, by non-increasing key. */
  method SortResults(a: array<SearchGame>, key: SearchGame -> int)
    modifies a
    ensures a[..] == SortByKey(old(a[..]), key)
  {
    ghost var input := a[..];
    for i := 0 to a.Length
      invariant a[..i] == SortByKey(input[..i], key)
      invariant a[i..] == input[i..]
    {
      SortPrefixStep(input, i, key);
      assert a[i] == input[i];
      InsertLast(a, i, key);
      assert a[i + 1..] == input[i + 1..];
    }
    assert input[..a.Length] == input;
  }

  const MaxShown := 7

  /** The results shown for a query: nothing for an empty query; otherwise the
      results are sorted in place by relevance and the first seven shown. */
  method ShowResults(query: string, results: array<SearchGame>, currentYear: int) returns (shown: seq<SearchGame>)
    modifies results
    ensures query == "" ==> shown == [] && results[..] == old(results[..])
    ensures query != "" ==>
      results[..] == SortByKey(old(results[..]), g => RelevanceScore(g, query, currentYear)) &&
      shown == results[..if results.Length < MaxShown then results.Length else MaxShown]
  {
    if query == "" {
      return [];
    }
    SortResults(results, g => RelevanceScore(g, query, currentYear));
    shown := results[..if results.Length < MaxShown then results.Length else MaxShown];
  }

  /** What is shown is at most seven results, in non-increasing relevance,
      and none of the results left out scores higher than any shown. */
  lemma ShownAreTop(s: seq<SearchGame>, key: SearchGame -> int)
    ensures var sorted := SortByKey(s, key);
      var n := if |sorted| < MaxShown then |sorted| else MaxShown;
      n <= MaxShown && SortedByKey(sorted[..n], key) &&
      (forall i, j :: 0 <= i < n <= j < |sorted| ==> key(sorted[i]) >= key(sorted[j])) &&
      multiset(sorted) == multiset(s)
  {
    SortByKeySorted(s, key);
  }
}

/** The system-requirements panel (src/components/SystemRequirements.tsx):
    each requirements text becomes its non-blank lines, trimmed. */
module Requirements {
  import opened Wrappers
  import opened Text

  /** The trimmed lines that are not blank, in order. */
  function KeepNonBlank(lines: seq<string>): (r: seq<string>)
    ensures |r| <= |lines|
    ensures |lines| == 1 ==> r == if Trim(lines[0]) != "" then [Trim(lines[0])] else []
    ensures forall i :: 0 <= i < |r| ==> r[i] != "" && exists j :: 0 <= j < |lines| && r[i] == Trim(lines[j])
    ensures forall j :: 0 <= j < |lines| && Trim(lines[j]) != "" ==> Trim(lines[j]) in r
  {
    if lines == [] then []
    else
      var rest := KeepNonBlank(lines[1..]);
      assert forall j :: 1 <= j < |lines| ==> lines[j] == lines[1..][j - 1];
      if Trim(lines[0]) != "" then [Trim(lines[0])] + rest else rest
  }

  /** Line by line: the kept lines of two pieces are the kept lines of each,
      in order, so nothing is reordered and every non-blank line is kept. */
  lemma {:induction false} KeepNonBlankAppend(a: seq<string>, b: seq<string>)
    ensures KeepNonBlank(a + b) == KeepNonBlank(a) + KeepNonBlank(b)
  {
    if a == [] {
      assert a + b == b;
    } else {
      assert (a + b)[0] == a[0];
      assert (a + b)[1..] == a[1..] + b;
      KeepNonBlankAppend(a[1..], b);
    }
  }

  /** `formatRequirements`: nothing for an absent or empty text; otherwise the
      text split at line feeds, each line trimmed, blank lines dropped. */
  function FormatRequirements(requirements: Option<string>): (r: seq<string>)
    ensures requirements.None? || requirements.value == "" ==> r == []
    ensures requirements.Some? && requirements.value != "" ==> r == KeepNonBlank(Split(requirements.value, '\n'))
  {
    if requirements.None? || requirements.value == "" then []
    else KeepNonBlank(Split(requirements.value, '\n'))
  }

  /** A line is clean: non-empty, trimmed and without a line feed. */
  predicate CleanLine(l: string) {
    l != "" && Trim(l) == l && '\n' !in l
  }

  lemma TrimKeepsOut(l: string, c: char)
    requires c !in l
    ensures c !in Trim(l)
  {
    TrimShape(l);
    var k := |l| - |TrimStart(l)|;
    forall i | 0 <= i < |Trim(l)|
      ensures Trim(l)[i] != c
    {
      assert Trim(l)[i] == l[k + i];
    }
  }

  lemma {:induction false} KeepNonBlankClean(lines: seq<string>)
    requires forall i :: 0 <= i < |lines| ==> '\n' !in lines[i]
    ensures forall i :: 0 <= i < |KeepNonBlank(lines)| ==> CleanLine(KeepNonBlank(lines)[i])
  {
    if lines != [] {
      KeepNonBlankClean(lines[1..]);
      TrimIdempotent(lines[0]);
      TrimKeepsOut(lines[0], '\n');
    }
  }

  /** Every line shown is non-empty, trimmed and a single line. */
  lemma FormattedLinesClean(requirements: Option<string>)
    ensures forall i :: 0 <= i < |FormatRequirements(requirements)| ==> CleanLine(FormatRequirements(requirements)[i])
  {
    if requirements.Some? && requirements.value != "" {
      KeepNonBlankClean(Split(requirements.value, '\n'));
    }
  }

  lemma {:induction false} KeepNonBlankOfClean(lines: seq<string>)
    requires forall i :: 0 <= i < |lines| ==> CleanLine(lines[i])
    ensures KeepNonBlank(lines) == lines
  {
    if lines != [] {
      KeepNonBlankOfClean(lines[1..]);
    }
  }

  /** Clean lines joined with line feeds format back to themselves. */
  lemma FormatJoinRoundTrip(lines: seq<string>)
    requires |lines| >= 1 && forall i :: 0 <= i < |lines| ==> CleanLine(lines[i])
    ensures FormatRequirements(Some(Join(lines, '\n'))) == lines
  {
    SplitJoin(lines, '\n');
    KeepNonBlankOfClean(lines);
    JoinNonEmpty(lines, '\n');
  }

  lemma {:induction false} JoinNonEmpty(parts: seq<string>, sep: char)
    requires |parts| >= 1 && parts[0] != ""
    ensures Join(parts, sep) != ""
  {
  }

  /** Formatting what was shown, joined again, shows the same lines. */
  lemma FormatIdempotent(requirements: Option<string>)
    requires |FormatRequirements(requirements)| >= 1
    ensures FormatRequirements(Some(Join(FormatRequirements(requirements), '\n'))) == FormatRequirements(requirements)
  {
    FormattedLinesClean(requirements);
    FormatJoinRoundTrip(FormatRequirements(requirements));
  }

  lemma TrimThreeLines()
    ensures Trim("a") == "a" && Trim("  ") == "" && Trim("b ") == "b"
  {
    assert TrimStart("  ") == TrimStart(" ") == TrimStart("");
    assert TrimEnd("b ") == TrimEnd("b");
  }

  lemma SplitThree(x: string, y: string, z: string, sep: char)
    requires sep !in x && sep !in y && sep !in z
    ensures Split(x + [sep] + y + [sep] + z, sep) == [x, y, z]
  {
    SplitCons(y, z, sep);
    assert Split(z, sep) == [z];
    SplitCons(x, y + [sep] + z, sep);
    assert x + [sep] + y + [sep] + z == x + [sep] + (y + [sep] + z);
  }

  lemma KeepTwoOfThree()
    ensures KeepNonBlank(["a", "  ", "b "]) == ["a", "b"]
  {
    TrimThreeLines();
    var lines := ["a", "  ", "b "];
    assert lines[1..] == ["  ", "b "] && lines[1..][1..] == ["b "];
    assert KeepNonBlank(["b "]) == ["b"];
  }

  /** Blank and whitespace-only lines are dropped. */
  lemma BlankLinesDropped()
    ensures FormatRequirements(Some("a\n  \nb ")) == ["a", "b"]
  {
    assert "a\n  \nb " == "a" + ['\n'] + "  " + ['\n'] + "b ";
    SplitThree("a", "  ", "b ", '\n');
    KeepTwoOfThree();
  }

  /** The panel: nothing when both lists are empty, else both lists. */
  function RenderRequirements(minimum: Option<string>, recommended: Option<string>): (r: Option<(seq<string>, seq<string>)>)
    ensures r.None? <==> |FormatRequirements(minimum)| == 0 && |FormatRequirements(recommended)| == 0
    ensures r.Some? ==> r.value == (FormatRequirements(minimum), FormatRequirements(recommended))
  {
    var mins := FormatRequirements(minimum);
    var recs := FormatRequirements(recommended);
    if |mins| == 0 && |recs| == 0 then None else Some((mins, recs))
  }
}

/** The per-cell text views of chandra/output.py: `html_to_table_html`,
    `html_to_latex` and the label dispatch `extract_text_from_cell`.

    Parsing the cell's markup is not modelled: a cell is given by what the
    parser finds in it, in document order. */
module CellText {
  import opened Text

  /** What the parser finds in one cell's markup:
      - `tables`: the serialisation `str(table)` of every `<table>`;
      - `maths`: the text `get_text()` of every `<math>` tag;
      - `plainText`: the result of `html_to_plain_text` on the markup. */
  datatype Fragment = Fragment(tables: seq<string>, maths: seq<string>, plainText: string)

  /** Separator between tables, and between formulas. */
  const TableSeparator: string := "\n\n"
  const FormulaSeparator: string := "\n"

  /** The labels routed to the LaTeX view and those that yield no text. */
  const FormulaLabels: set<string> := {"Formula", "Equation", "Math"}
  const PictureLabels: set<string> := {"Image", "Figure", "Picture"}

  /** `html_to_table_html`: the tables separated by blank lines, or the
      plain text when there is no table. */
  function TableHtml(f: Fragment): (r: string)
    ensures |f.tables| == 0 ==> r == f.plainText
    ensures |f.tables| > 0 ==> StartsWith(r, f.tables[0]) && EndsWith(r, f.tables[|f.tables| - 1])
    ensures |f.tables| > 0 ==>
      |r| == PartOffset(f.tables, TableSeparator, |f.tables| - 1) + |f.tables[|f.tables| - 1]|
  {
    if |f.tables| == 0 then f.plainText
    else
      JoinEnds(f.tables, TableSeparator);
      JoinLength(f.tables, TableSeparator);
      Join(f.tables, TableSeparator)
  }

  /** A join starts with the first part and ends with the last. */
  lemma JoinEnds(parts: seq<string>, sep: string)
    requires |parts| >= 1
    ensures StartsWith(Join(parts, sep), parts[0])
    ensures EndsWith(Join(parts, sep), parts[|parts| - 1])
  {
    var n := |parts|;
    if n > 1 {
      JoinSnoc(parts[..n - 1], parts[n - 1], sep);
      assert parts[..n - 1] + [parts[n - 1]] == parts;
    }
  }

  /** Every table appears verbatim in the table view, in document order,
      each followed by a blank line unless it is the last. */
  lemma TableHtmlContents(f: Fragment, i: nat)
    requires i < |f.tables|
    ensures var r := TableHtml(f); var at := PartOffset(f.tables, TableSeparator, i);
            && at + |f.tables[i]| <= |r|
            && r[at..at + |f.tables[i]|] == f.tables[i]
            && (i + 1 < |f.tables| ==>
                  PartOffset(f.tables, TableSeparator, i + 1) <= |r|
                  && r[at + |f.tables[i]|..PartOffset(f.tables, TableSeparator, i + 1)] == TableSeparator)
            && (i + 1 == |f.tables| ==> |r| == at + |f.tables[i]|)
  {
    JoinContents(f.tables, TableSeparator, i);
    JoinLength(f.tables, TableSeparator);
  }

  /** The stripped texts of the math tags, in order, blank ones skipped: the
      parts `html_to_latex` collects. */
  function FormulaParts(maths: seq<string>): (r: seq<string>)
    ensures |r| <= |maths|
    ensures forall j :: 0 <= j < |r| ==> |r[j]| > 0 && Trimmed(r[j])
  {
    if |maths| == 0 then []
    else
      var rest := FormulaParts(maths[..|maths| - 1]);
      var t := Strip(maths[|maths| - 1]);
      if t == "" then rest else rest + [t]
  }

  /** The parts are collected tag by tag: the parts of a concatenation are
      the parts of each half, in order. */
  lemma {:induction false} FormulaPartsAppend(a: seq<string>, b: seq<string>)
    ensures FormulaParts(a + b) == FormulaParts(a) + FormulaParts(b)
    decreases |b|
  {
    if |b| > 0 {
      var b' := b[..|b| - 1];
      assert (a + b)[..|a + b| - 1] == a + b';
      FormulaPartsAppend(a, b');
    } else {
      assert a + b == a;
    }
  }

  /** One math tag gives its stripped text, or nothing when that is empty. */
  lemma FormulaPartsSingle(t: string)
    ensures FormulaParts([t]) == if Strip(t) == "" then [] else [Strip(t)]
  {
    assert [t][..0] == [];
  }

  /** Each collected part is the stripped text of some math tag. */
  lemma {:induction false} FormulaPartsSound(maths: seq<string>)
    ensures forall j :: 0 <= j < |FormulaParts(maths)| ==>
      exists i :: 0 <= i < |maths| && FormulaParts(maths)[j] == Strip(maths[i])
  {
    if |maths| > 0 {
      var init := maths[..|maths| - 1];
      var r := FormulaParts(maths);
      var rest := FormulaParts(init);
      FormulaPartsSound(init);
      assert r == rest || r == rest + [Strip(maths[|maths| - 1])];
      forall j | 0 <= j < |r|
        ensures exists i :: 0 <= i < |maths| && r[j] == Strip(maths[i])
      {
        if j < |rest| {
          var i :| 0 <= i < |init| && rest[j] == Strip(init[i]);
          assert init[i] == maths[i];
          assert r[j] == Strip(maths[i]);
        } else {
          assert r[j] == Strip(maths[|maths| - 1]);
        }
      }
      assert forall j :: 0 <= j < |FormulaParts(maths)| ==>
        exists i :: 0 <= i < |maths| && FormulaParts(maths)[j] == Strip(maths[i]);
    } else {
      assert FormulaParts(maths) == [];
    }
  }

  /** The stripped text of every non-blank math tag is collected. */
  lemma {:induction false} FormulaPartsComplete(maths: seq<string>)
    ensures forall i :: 0 <= i < |maths| && Strip(maths[i]) != "" ==> Strip(maths[i]) in FormulaParts(maths)
  {
    if |maths| > 0 {
      var init := maths[..|maths| - 1];
      var r := FormulaParts(maths);
      var rest := FormulaParts(init);
      FormulaPartsComplete(init);
      assert forall x :: x in rest ==> x in r;
      forall i | 0 <= i < |maths| && Strip(maths[i]) != ""
        ensures Strip(maths[i]) in r
      {
        if i < |maths| - 1 {
          assert init[i] == maths[i];
        }
      }
    }
  }

  /** The collected parts are exactly the non-blank stripped formulas: each
      part comes from some math tag, every non-blank tag gives a part, and
      there is no part at all exactly when every tag is blank. */
  lemma FormulaPartsContents(maths: seq<string>)
    ensures forall j :: 0 <= j < |FormulaParts(maths)| ==>
      exists i :: 0 <= i < |maths| && FormulaParts(maths)[j] == Strip(maths[i])
    ensures forall i :: 0 <= i < |maths| && Strip(maths[i]) != "" ==> Strip(maths[i]) in FormulaParts(maths)
    ensures |FormulaParts(maths)| == 0 <==> forall i :: 0 <= i < |maths| ==> Strip(maths[i]) == ""
  {
    var r := FormulaParts(maths);
    FormulaPartsSound(maths);
    FormulaPartsComplete(maths);
    if |r| > 0 {
      var i :| 0 <= i < |maths| && r[0] == Strip(maths[i]);
      assert Strip(maths[i]) != "";
    }
  }

  /** `html_to_latex`: the non-blank formulas, stripped, one per line, or
      the plain text when there is no math tag at all. Math tags that are all
      blank give the empty string, not the plain text. */
  function Latex(f: Fragment): (r: string)
    ensures |f.maths| == 0 ==> r == f.plainText
    ensures |f.maths| > 0 ==> (r == "" <==> forall i :: 0 <= i < |f.maths| ==> Strip(f.maths[i]) == "")
    ensures var parts := FormulaParts(f.maths);
            |f.maths| > 0 && |parts| > 0 ==>
              |r| == PartOffset(parts, FormulaSeparator, |parts| - 1) + |parts[|parts| - 1]|
  {
    if |f.maths| == 0 then f.plainText
    else
      var parts := FormulaParts(f.maths);
      FormulaPartsContents(f.maths);
      if |parts| == 0 then ""
      else
        JoinLength(parts, FormulaSeparator);
        assert |Join(parts, FormulaSeparator)| >= |parts[0]|;
        Join(parts, FormulaSeparator)
  }

  /** Joining non-empty trimmed parts gives a trimmed string. */
  lemma JoinTrimmed(parts: seq<string>, sep: string)
    requires |parts| >= 1
    requires forall j :: 0 <= j < |parts| ==> |parts[j]| > 0 && Trimmed(parts[j])
    ensures Trimmed(Join(parts, sep))
  {
    var r := Join(parts, sep);
    var last := parts[|parts| - 1];
    JoinEnds(parts, sep);
    assert r[0] == r[..|parts[0]|][0];
    assert r[|r| - 1] == r[|r| - |last|..][|last| - 1];
  }

  /** Like the plain-text view, the LaTeX view never starts or ends with
      whitespace. */
  lemma LatexTrimmed(f: Fragment)
    requires Trimmed(f.plainText)
    ensures Trimmed(Latex(f))
  {
    if |f.maths| > 0 && |FormulaParts(f.maths)| > 0 {
      JoinTrimmed(FormulaParts(f.maths), FormulaSeparator);
    }
  }

  /** When no formula spans several lines, splitting the LaTeX view at line
      breaks gives back exactly the collected formulas. */
  lemma LatexLines(f: Fragment)
    requires |f.maths| > 0
    requires exists i :: 0 <= i < |f.maths| && Strip(f.maths[i]) != ""
    requires forall i :: 0 <= i < |f.maths| ==> '\n' !in f.maths[i]
    ensures Split(Latex(f), '\n') == FormulaParts(f.maths)
  {
    var parts := FormulaParts(f.maths);
    FormulaPartsContents(f.maths);
    forall j | 0 <= j < |parts|
      ensures '\n' !in parts[j]
    {
      var i :| 0 <= i < |f.maths| && parts[j] == Strip(f.maths[i]);
      StripKeepsOut(f.maths[i], '\n');
    }
    SplitJoin(parts, '\n');
  }

  /** Every collected formula appears verbatim in the LaTeX view, in
      document order, each followed by a line break unless it is the last;
      multi-line formulas included. */
  lemma LatexContents(f: Fragment, j: nat)
    requires |f.maths| > 0
    requires j < |FormulaParts(f.maths)|
    ensures var parts := FormulaParts(f.maths);
            var r := Latex(f); var at := PartOffset(parts, FormulaSeparator, j);
            && at + |parts[j]| <= |r|
            && r[at..at + |parts[j]|] == parts[j]
            && (j + 1 < |parts| ==>
                  PartOffset(parts, FormulaSeparator, j + 1) <= |r|
                  && r[at + |parts[j]|..PartOffset(parts, FormulaSeparator, j + 1)] == FormulaSeparator)
            && (j + 1 == |parts| ==> |r| == at + |parts[j]|)
  {
    LatexIsJoin(f);
    JoinLayout(FormulaParts(f.maths), FormulaSeparator, Latex(f), j);
  }

  /** With math tags, the LaTeX view is the join of the collected formulas. */
  lemma LatexIsJoin(f: Fragment)
    requires |f.maths| > 0
    ensures Latex(f) == Join(FormulaParts(f.maths), FormulaSeparator)
  {
  }

  /** `extract_text_from_cell(label, html)`: tables keep their markup,
      formulas become LaTeX, pictures have no text, everything else is plain
      text. */
  function CellText(cellLabel: string, f: Fragment): (r: string)
    ensures cellLabel == "Table" ==> r == TableHtml(f)
    ensures cellLabel in FormulaLabels ==> r == Latex(f)
    ensures cellLabel in PictureLabels ==> r == ""
    ensures cellLabel != "Table" && cellLabel !in FormulaLabels && cellLabel !in PictureLabels ==> r == f.plainText
  {
    if cellLabel == "Table" then TableHtml(f)
    else if cellLabel in FormulaLabels then Latex(f)
    else if cellLabel in PictureLabels then ""
    else f.plainText
  }

  /** Only the table and formula labels look at the tags found in the cell;
      for every other label two cells with the same plain text get the same
      text, the unlabelled default "block" included. */
  lemma OtherLabelsUsePlainTextOnly(cellLabel: string, f1: Fragment, f2: Fragment)
    requires cellLabel != "Table" && cellLabel !in FormulaLabels
    requires f1.plainText == f2.plainText
    ensures CellText(cellLabel, f1) == CellText(cellLabel, f2)
    ensures CellText("block", f1) == f1.plainText
  {
  }

  /** A table label falls back to the plain text exactly like a text label
      when the cell holds no table, and a formula label when it holds no
      math tag. */
  lemma FallbacksAgreeWithText(f: Fragment)
    ensures |f.tables| == 0 ==> CellText("Table", f) == CellText("Text", f)
    ensures |f.maths| == 0 ==> CellText("Formula", f) == CellText("Text", f)
  {
  }
}

/** The string-level steps of the Markdown conversion in chandra/output.py:
    dollar escaping, the `<br>`-aware join of table cell text, the math and
    link conversions of the `Markdownify` converter, and the error path of
    `parse_markdown`.

    The converter's tree walk is not modelled: markdownify's own `escape` is
    an uninterpreted function `base`, and the whole conversion of a document
    is an uninterpreted function that either returns Markdown or raises. */
module Markdown {
  import opened Wrappers
  import opened Text
  import opened Layout
  import opened HtmlViews

  const Dollar: set<char> := {'$'}
  /** Characters escaped in link text. */
  const LinkSpecials: set<char> := {'[', ']', '(', ')'}

  /** `escape_dollars`: every `$` becomes `\$`. */
  function EscapeDollars(s: string): (r: string)
    ensures Unescape(r, Dollar) == s
    ensures |r| == |s| + CountIn(s, Dollar)
    ensures forall i :: 0 <= i < |r| && r[i] == '$' ==> 0 < i && r[i - 1] == '\\'
    ensures '$' !in s ==> r == s
  {
    UnescapeEscape(s, Dollar);
    EscapeLength(s, Dollar);
    if '$' in s then Escape(s, Dollar)
    else
      EscapeNoSpecial(s, Dollar);
      Escape(s, Dollar)
  }

  /** A price keeps its digits and gets its dollar sign escaped. */
  lemma EscapeDollarsExample()
    ensures EscapeDollars("$5.00") == "\\$5.00"
  {
    var price, rest := "$5.00", "5.00";
    assert forall i :: 0 <= i < |rest| ==> rest[i] !in Dollar;
    EscapeNoSpecial(rest, Dollar);
    assert price[0] == '$' && price[1..] == rest;
    assert Escape(price, Dollar) == ['\\', '$'] + rest;
    EscapedPrice();
  }

  lemma EscapedPrice()
    ensures ['\\', '$'] + "5.00" == "\\$5.00"
  {
  }

  /** `Markdownify.escape`: markdownify's escape, then, when the
      `escape_dollars` option is set, every `$` escaped. */
  function EscapeText(base: string -> string, escapeDollarsOption: bool, text: string): (r: string)
    ensures !escapeDollarsOption ==> r == base(text)
    ensures escapeDollarsOption ==> Unescape(r, Dollar) == base(text)
    ensures escapeDollarsOption ==> forall i :: 0 <= i < |r| && r[i] == '$' ==> 0 < i && r[i - 1] == '\\'
  {
    var t := base(text);
    if escapeDollarsOption then EscapeDollars(t) else t
  }

  /** `parse_markdown` turns the `escape_dollars` option on. */
  const MarkdownEscapesDollars: bool := true

  /** The text of a text node outside `pre`, `code`, `kbd`, `samp` and
      `math`, as `process_text` leaves it (whitespace already normalised). */
  function TextNode(base: string -> string, text: string): string
  {
    EscapeText(base, MarkdownEscapesDollars, text)
  }

  // ---------------------------------------------------------------------
  // Links

  /** `convert_a` AS WRITTEN, before markdownify builds the link: the
      children's text, which `process_text` has already escaped, is escaped
      a second time, then brackets and parentheses are escaped. */
  function LinkTextAsWritten(base: string -> string, childText: string): (r: string)
    ensures Unescape(r, LinkSpecials) == EscapeText(base, MarkdownEscapesDollars, childText)
    ensures forall i :: 0 <= i < |r| && r[i] in LinkSpecials ==> 0 < i && r[i - 1] == '\\'
  {
    UnescapeEscape(EscapeText(base, MarkdownEscapesDollars, childText), LinkSpecials);
    Escape(EscapeText(base, MarkdownEscapesDollars, childText), LinkSpecials)
  }

  /** A link around the single text node "$", with a markdownify escape that
      leaves backslashes and dollar signs alone (its `escape_misc` option is
      off): the node's text is `\$`, and the link text becomes `\\$`, an
      escaped backslash followed by a bare dollar sign. */
  lemma LinkDollarEscapedTwice(base: string -> string)
    requires base("$") == "$"
    requires base("\\$") == "\\$"
    ensures TextNode(base, "$") == "\\$"
    ensures LinkTextAsWritten(base, TextNode(base, "$")) == "\\\\$"
  {
    assert EscapeDollars("$") == "\\$" by {
      assert "$"[1..] == "";
    }
    assert EscapeDollars("\\$") == "\\\\$" by {
      assert "\\$"[1..] == "$";
      assert "$"[1..] == "";
    }
    assert Escape("\\\\$", LinkSpecials) == "\\\\$" by {
      EscapeNoSpecial("\\\\$", LinkSpecials);
    }
  }

  /** `convert_a` as intended: the children's text is already escaped, so
      only brackets and parentheses are. */
  function LinkText(childText: string): (r: string)
    ensures Unescape(r, LinkSpecials) == childText
    ensures forall i :: 0 <= i < |r| && r[i] in LinkSpecials ==> 0 < i && r[i - 1] == '\\'
    ensures |r| == |childText| + CountIn(childText, LinkSpecials)
  {
    UnescapeEscape(childText, LinkSpecials);
    EscapeLength(childText, LinkSpecials);
    Escape(childText, LinkSpecials)
  }

  /** With the intended link conversion, the text of a link around one text
      node is that node's text, escaped once, with its brackets escaped: the
      two escapes can be undone in turn. */
  lemma LinkTextEscapedOnce(base: string -> string, text: string)
    ensures Unescape(Unescape(LinkText(TextNode(base, text)), LinkSpecials), Dollar) == base(text)
    ensures LinkText(TextNode(base, "$")) == "\\$" || base("$") != "$"
  {
    if base("$") == "$" {
      assert EscapeDollars("$") == "\\$" by {
        assert "$"[1..] == "";
      }
      EscapeNoSpecial("\\$", LinkSpecials);
    }
  }

  // ---------------------------------------------------------------------
  // Math

  /** A pair of opening and closing math delimiters. */
  datatype Delimiters = Delimiters(open: string, close: string)

  /** The delimiters `parse_markdown` configures. */
  const InlineMath: Delimiters := Delimiters("$", "$")
  const BlockMath: Delimiters := Delimiters("$$", "$$")

  /** A `<math>` tag is a block formula when its `display` attribute is
      exactly "block". */
  predicate IsBlock(display: Option<string>) {
    display == Some("block")
  }

  /** `convert_math`: the stripped formula between the block delimiters on a
      line of its own, or between the inline delimiters with a space on each
      side. */
  function ConvertMath(display: Option<string>, text: string, inline: Delimiters, block: Delimiters): string
  {
    if IsBlock(display) then "\n" + block.open + Strip(text) + block.close + "\n"
    else " " + inline.open + Strip(text) + inline.close + " "
  }

  /** Length of what `ConvertMath` puts in front of the formula. */
  function MathPrefixLength(display: Option<string>, inline: Delimiters, block: Delimiters): nat {
    if IsBlock(display) then 1 + |block.open| else 1 + |inline.open|
  }

  /** The formula can be read back from the converted text, and converting
      what is read back gives the same text again: whitespace around the
      formula is the only thing lost. A block formula sits between the block
      delimiters on a line of its own, any other between the inline
      delimiters padded with spaces; with the configured delimiters a block
      formula, and only a block formula, starts a new line. */
  lemma ConvertMathRecoverable(display: Option<string>, text: string, inline: Delimiters, block: Delimiters)
    ensures var r := ConvertMath(display, text, inline, block);
            var p := MathPrefixLength(display, inline, block);
            var t := Strip(text);
            && p + |t| <= |r|
            && r[p..p + |t|] == t
            && |r| == p + |t| + (if IsBlock(display) then |block.close| else |inline.close|) + 1
            && ConvertMath(display, r[p..p + |t|], inline, block) == r
    ensures var r := ConvertMath(display, text, inline, block);
            IsBlock(display) ==> StartsWith(r, "\n" + block.open) && EndsWith(r, block.close + "\n")
    ensures var r := ConvertMath(display, text, inline, block);
            !IsBlock(display) ==> StartsWith(r, " " + inline.open) && EndsWith(r, inline.close + " ")
    ensures ConvertMath(display, text, InlineMath, BlockMath)[0] == '\n' <==> IsBlock(display)
  {
    ConvertMathReadBack(display, text, inline, block);
    ConvertMathDelimited(display, text, inline, block);
    ConvertMathNewline(display, text);
  }

  lemma ConvertMathReadBack(display: Option<string>, text: string, inline: Delimiters, block: Delimiters)
    ensures var r := ConvertMath(display, text, inline, block);
            var p := MathPrefixLength(display, inline, block);
            var t := Strip(text);
            && p + |t| <= |r|
            && r[p..p + |t|] == t
            && |r| == p + |t| + (if IsBlock(display) then |block.close| else |inline.close|) + 1
            && ConvertMath(display, r[p..p + |t|], inline, block) == r
  {
    var r := ConvertMath(display, text, inline, block);
    var p := MathPrefixLength(display, inline, block);
    var t := Strip(text);
    StripTrimmed(t);
    var pre := if IsBlock(display) then "\n" + block.open else " " + inline.open;
    var post := if IsBlock(display) then block.close + "\n" else inline.close + " ";
    assert r == pre + t + post;
    assert |pre| == p;
    MiddleSlice(pre, t, post);
    assert ConvertMath(display, t, inline, block) == r;
  }

  lemma ConvertMathDelimited(display: Option<string>, text: string, inline: Delimiters, block: Delimiters)
    ensures var r := ConvertMath(display, text, inline, block);
            IsBlock(display) ==> StartsWith(r, "\n" + block.open) && EndsWith(r, block.close + "\n")
    ensures var r := ConvertMath(display, text, inline, block);
            !IsBlock(display) ==> StartsWith(r, " " + inline.open) && EndsWith(r, inline.close + " ")
  {
    var r := ConvertMath(display, text, inline, block);
    if IsBlock(display) {
      assert r == ("\n" + block.open) + Strip(text) + (block.close + "\n");
    } else {
      assert r == (" " + inline.open) + Strip(text) + (inline.close + " ");
    }
  }

  lemma ConvertMathNewline(display: Option<string>, text: string)
    ensures ConvertMath(display, text, InlineMath, BlockMath)[0] == '\n' <==> IsBlock(display)
  {
  }

  /** The middle part of a three-part concatenation. */
  lemma MiddleSlice(x: string, t: string, y: string)
    ensures (x + t + y)[|x|..|x| + |t|] == t
  {
  }

  // ---------------------------------------------------------------------
  // Table cell text

  /** A child of a table cell, as `get_formatted_table_text` sees it: a text
      node, a `<br>` tag, a `<math>` tag (with its text) or any other tag
      (with its serialisation). */
  datatype TableNode = TextPart(text: string) | BrTag | MathTag(mathText: string) | OtherTag(markup: string)

  const Br: string := "<br>"

  /** What one child contributes to the list of pieces, if anything. */
  function TableItem(n: TableNode): (r: Option<string>)
    ensures r.None? <==> n.TextPart? && Strip(n.text) == ""
    ensures n.BrTag? ==> r == Some(Br)
    ensures n.TextPart? && r.Some? ==> Unescape(r.value, Dollar) == Strip(n.text)
    ensures n.TextPart? && r.Some? ==> r.value == EscapeDollars(Strip(n.text))
    ensures n.MathTag? ==> r == Some("$" + n.mathText + "$")
    ensures n.OtherTag? ==> r == Some(EscapeDollars(n.markup)) && Unescape(r.value, Dollar) == n.markup
    ensures (n.TextPart? || n.OtherTag?) && r.Some? ==>
      forall i :: 0 <= i < |r.value| && r.value[i] == '$' ==> 0 < i && r.value[i - 1] == '\\'
  {
    match n
    case TextPart(t) => if Strip(t) == "" then None else Some(EscapeDollars(Strip(t)))
    case BrTag => Some(Br)
    case MathTag(t) => Some("$" + t + "$")
    case OtherTag(m) => Some(EscapeDollars(m))
  }

  /** The pieces of a cell, in order (the first loop). */
  function TableItems(nodes: seq<TableNode>): (r: seq<string>)
    ensures |r| <= |nodes|
  {
    if |nodes| == 0 then []
    else
      var rest := TableItems(nodes[..|nodes| - 1]);
      match TableItem(nodes[|nodes| - 1])
      case None => rest
      case Some(t) => rest + [t]
  }

  /** The pieces are collected child by child: the pieces of a
      concatenation are the pieces of each half, in order. */
  lemma {:induction false} TableItemsAppend(a: seq<TableNode>, b: seq<TableNode>)
    ensures TableItems(a + b) == TableItems(a) + TableItems(b)
    decreases |b|
  {
    if |b| > 0 {
      var b' := b[..|b| - 1];
      assert (a + b)[..|a + b| - 1] == a + b';
      TableItemsAppend(a, b');
    } else {
      assert a + b == a;
    }
  }

  /** One child gives its piece, or nothing for blank text. */
  lemma TableItemsSingle(n: TableNode)
    ensures TableItems([n]) == if TableItem(n).None? then [] else [TableItem(n).value]
  {
    assert [n][..0] == [];
  }

  /** What goes in front of piece `i`: a space between two pieces neither of
      which is a `<br>`, nothing otherwise. */
  function Gap(items: seq<string>, i: nat): string
    requires i < |items|
  {
    if i > 0 && items[i] != Br && items[i - 1] != Br then " " else ""
  }

  /** The joining loop of `get_formatted_table_text` after its first `n`
      pieces. */
  function TableText(items: seq<string>): string
  {
    if |items| == 0 then ""
    else TableText(items[..|items| - 1]) + Gap(items, |items| - 1) + items[|items| - 1]
  }

  /** `get_formatted_table_text` of a cell's children. */
  function FormattedTableText(nodes: seq<TableNode>): string
  {
    TableText(TableItems(nodes))
  }

  /** Without line breaks the pieces are joined with single spaces. */
  lemma {:induction false} TableTextNoBreaks(items: seq<string>)
    requires forall i :: 0 <= i < |items| ==> items[i] != Br
    ensures TableText(items) == Join(items, " ")
    decreases |items|
  {
    var n := |items|;
    if n == 1 {
      assert items[..0] == [];
    } else if n > 1 {
      var init := items[..n - 1];
      TableTextNoBreaks(init);
      JoinSnoc(init, items[n - 1], " ");
      assert init + [items[n - 1]] == items;
    }
  }

  /** Unfolding of `TableText` for one more piece. */
  lemma TableTextSnoc(xs: seq<string>, x: string)
    ensures TableText(xs + [x]) == TableText(xs) + Gap(xs + [x], |xs|) + x
  {
    assert (xs + [x])[..|xs|] == xs;
  }

  /** A `<br>` piece is copied as is and no space is put on either side of
      it: the text splits at the break into the texts of the two sides. */
  lemma {:induction false} TableTextAtBreak(a: seq<string>, b: seq<string>)
    ensures TableText(a + [Br] + b) == TableText(a) + Br + TableText(b)
    decreases |b|
  {
    if |b| == 0 {
      assert a + [Br] + b == a + [Br];
      TableTextSnoc(a, Br);
    } else {
      var b' := b[..|b| - 1];
      var x := b[|b| - 1];
      var s' := a + [Br] + b';
      assert a + [Br] + b == s' + [x];
      assert b == b' + [x];
      TableTextAtBreak(a, b');
      TableTextSnoc(s', x);
      TableTextSnoc(b', x);
      GapAfterBreak(a, b);
      var g := Gap(b, |b| - 1);
      var p, t := TableText(a) + Br, TableText(b');
      assert TableText(s') == p + t;
      ConcatAssoc(p, t, g);
      ConcatAssoc(p, t + g, x);
    }
  }

  lemma ConcatAssoc(p: string, q: string, r: string)
    ensures (p + q) + r == p + (q + r)
  {
  }

  /** The gap in front of a piece after a `<br>` only depends on the pieces
      after it. */
  lemma GapAfterBreak(a: seq<string>, b: seq<string>)
    requires |b| > 0
    ensures Gap(a + [Br] + b, |a| + |b|) == Gap(b, |b| - 1)
  {
    var s := a + [Br] + b;
    assert s[|a| + |b|] == b[|b| - 1];
    assert s[|a| + |b| - 1] == if |b| > 1 then b[|b| - 2] else Br;
  }

  /** Whitespace-only text children contribute nothing, so they never cause
      a doubled space. */
  lemma BlankTextIgnored(nodes: seq<TableNode>, t: string)
    requires Strip(t) == ""
    ensures FormattedTableText(nodes + [TextPart(t)]) == FormattedTableText(nodes)
  {
    assert (nodes + [TextPart(t)])[..|nodes|] == nodes;
  }

  // ---------------------------------------------------------------------
  // Whole page

  /** `parse_markdown(html, include_headers_footers)`: the filtered view of
      the page's `<div>`s is converted; a conversion that raises gives the
      empty string, any other result is stripped. */
  function ParseMarkdown(convert: string -> Option<string>, divs: seq<Div>, includeHeadersFooters: bool): (r: string)
    ensures Trimmed(r)
    ensures convert(ParseHtml(divs, includeHeadersFooters)).None? ==> r == ""
    ensures convert(ParseHtml(divs, includeHeadersFooters)).Some? ==>
      var md := convert(ParseHtml(divs, includeHeadersFooters)).value;
      var k := LeadingSpaces(md);
      && k + |r| <= |md|
      && r == md[k..k + |r|]
      && forall i :: 0 <= i < |md| && (i < k || k + |r| <= i) ==> IsSpace(md[i])
  {
    match convert(ParseHtml(divs, includeHeadersFooters))
    case None => ""
    case Some(md) => Strip(md)
  }

  /** Headers and footers never reach the converter: converting the page
      without them, with nothing filtered, gives the same Markdown. */
  lemma ParseMarkdownFiltersFirst(convert: string -> Option<string>, divs: seq<Div>, includeHeadersFooters: bool)
    ensures ParseMarkdown(convert, divs, includeHeadersFooters) == ParseMarkdown(convert, Kept(divs, includeHeadersFooters), true)
  {
    ParseHtmlIsFilterThenRender(divs, includeHeadersFooters);
  }

  /** Markdown without surrounding whitespace is returned unchanged. */
  lemma ParseMarkdownKeepsTrimmed(convert: string -> Option<string>, divs: seq<Div>, includeHeadersFooters: bool)
    requires convert(ParseHtml(divs, includeHeadersFooters)).Some?
    requires Trimmed(convert(ParseHtml(divs, includeHeadersFooters)).value)
    ensures ParseMarkdown(convert, divs, includeHeadersFooters) == convert(ParseHtml(divs, includeHeadersFooters)).value
  {
    StripTrimmed(convert(ParseHtml(divs, includeHeadersFooters)).value);
  }
}

/** The filtered-HTML view (`parse_html`) and the naming of cropped images
    (`get_image_name`, `extract_images`) of chandra/output.py.

    The md5 digest is an uninterpreted function `hash` passed in by the
    caller, and an image crop is represented by the box it is cut from. */
module HtmlViews {
  import opened Wrappers
  import opened Text
  import opened Decimal
  import opened Layout

  /** Labels `parse_html` drops unless headers and footers are wanted. */
  const HeaderFooterLabels: set<string> := {"Page-Header", "Page-Footer"}
  /** Labels whose content is replaced (in `parse_html`) or cropped (in
      `extract_images`). */
  const ImageLabels: set<string> := {"Image", "Figure"}
  /** Tail of every image name. */
  const ImageNameSuffix: string := "_img.webp"

  /** A `<div>` that `parse_html` skips. */
  predicate Dropped(d: Div, includeHeadersFooters: bool) {
    !includeHeadersFooters && d.labelAttr.Some? && d.labelAttr.value in HeaderFooterLabels
  }

  /** What a kept `<div>` contributes: `[Image]` or `[Figure]` for image
      blocks, its inner markup otherwise. */
  function Piece(d: Div): string {
    if d.labelAttr.Some? && d.labelAttr.value in ImageLabels then "[" + d.labelAttr.value + "]"
    else d.inner
  }

  /** `parse_html`: the contributions of the kept `<div>`s, concatenated in
      order. */
  function ParseHtml(divs: seq<Div>, includeHeadersFooters: bool): string
  {
    if |divs| == 0 then ""
    else
      var last := divs[|divs| - 1];
      ParseHtml(divs[..|divs| - 1], includeHeadersFooters)
        + (if Dropped(last, includeHeadersFooters) then "" else Piece(last))
  }

  /** The `<div>`s kept by the header/footer filter, in order. */
  function Kept(divs: seq<Div>, includeHeadersFooters: bool): (r: seq<Div>)
    ensures |r| <= |divs|
    ensures forall i :: 0 <= i < |r| ==> r[i] in divs && !Dropped(r[i], includeHeadersFooters)
    ensures forall i :: 0 <= i < |divs| && !Dropped(divs[i], includeHeadersFooters) ==> divs[i] in r
    ensures includeHeadersFooters ==> r == divs
  {
    if |divs| == 0 then []
    else
      var rest := Kept(divs[..|divs| - 1], includeHeadersFooters);
      var last := divs[|divs| - 1];
      assert forall i :: 0 <= i < |divs| - 1 ==> divs[i] == divs[..|divs| - 1][i];
      if Dropped(last, includeHeadersFooters) then rest else rest + [last]
  }

  /** The filter works `<div>` by `<div>`: filtering a concatenation
      concatenates the filtered parts. */
  lemma {:induction false} KeptAppend(a: seq<Div>, b: seq<Div>, withHeaders: bool)
    ensures Kept(a + b, withHeaders) == Kept(a, withHeaders) + Kept(b, withHeaders)
    decreases |b|
  {
    if |b| > 0 {
      var b' := b[..|b| - 1];
      assert (a + b)[..|a + b| - 1] == a + b';
      KeptAppend(a, b', withHeaders);
    } else {
      assert a + b == a;
    }
  }

  /** A single `<div>` is kept exactly when it is not a dropped header or
      footer. */
  lemma KeptSingle(d: Div, withHeaders: bool)
    ensures Kept([d], withHeaders) == if Dropped(d, withHeaders) then [] else [d]
  {
    assert [d][..0] == [];
  }

  /** The view is built block by block: the view of a concatenation is the
      concatenation of the views. */
  lemma {:induction false} ParseHtmlAppend(a: seq<Div>, b: seq<Div>, withHeaders: bool)
    ensures ParseHtml(a + b, withHeaders) == ParseHtml(a, withHeaders) + ParseHtml(b, withHeaders)
    decreases |b|
  {
    if |b| > 0 {
      var b' := b[..|b| - 1];
      assert (a + b)[..|a + b| - 1] == a + b';
      ParseHtmlAppend(a, b', withHeaders);
    } else {
      assert a + b == a;
    }
  }

  /** Filtering first and then rendering everything gives the same view:
      headers and footers are removed and nothing else is. */
  lemma {:induction false} ParseHtmlIsFilterThenRender(divs: seq<Div>, withHeaders: bool)
    ensures ParseHtml(divs, withHeaders) == ParseHtml(Kept(divs, withHeaders), true)
    decreases |divs|
  {
    if |divs| > 0 {
      var init := divs[..|divs| - 1];
      var last := divs[|divs| - 1];
      ParseHtmlIsFilterThenRender(init, withHeaders);
      if !Dropped(last, withHeaders) {
        ParseHtmlAppend(Kept(init, withHeaders), [last], true);
        assert [last][..0] == [];
      }
    }
  }

  /** One `<div>`'s contribution: nothing for a dropped header or footer,
      the bracketed label for an image or figure, the inner markup for
      anything else, including every `<div>` without a label. */
  lemma SingleDivView(d: Div, withHeaders: bool)
    ensures ParseHtml([d], withHeaders) ==
      if Dropped(d, withHeaders) then ""
      else if d.labelAttr == Some("Image") then "[Image]"
      else if d.labelAttr == Some("Figure") then "[Figure]"
      else d.inner
    ensures d.labelAttr.None? ==> ParseHtml([d], withHeaders) == d.inner
  {
    assert [d][..0] == [];
  }

  /** `get_image_name(html, div_idx)` given the digest of `html`. */
  function ImageName(htmlHash: string, divIdx: nat): string {
    htmlHash + "_" + NatToString(divIdx) + ImageNameSuffix
  }

  /** Image names of one page never collide: distinct block positions give
      distinct names. */
  lemma ImageNameInjective(htmlHash: string, i: nat, j: nat)
    requires ImageName(htmlHash, i) == ImageName(htmlHash, j)
    ensures i == j
  {
    var a := NatToString(i);
    var b := NatToString(j);
    var s := ImageName(htmlHash, i);
    var start := |htmlHash| + 1;
    assert |a| == |b|;
    assert s[start..start + |a|] == a;
    assert ImageName(htmlHash, j)[start..start + |b|] == b;
    NatToStringInjective(i, j);
  }

  /** A chunk `extract_images` crops: an image or figure block whose content
      does not START with "img". The source tests `content.find("img")`,
      which is -1 (truthy) when "img" is absent and 0 (falsy) only when the
      content begins with it. */
  predicate Selected(c: LayoutBlock) {
    c.labelName in ImageLabels && Find(c.content, "img") != 0
  }

  /** Name of the image of the chunk at 0-based position `i` (`div_idx` is
      1-based and counts every chunk). */
  function NameAt(htmlHash: string, i: nat): string {
    ImageName(htmlHash, i + 1)
  }

  /** The `extract_images` loop after its first `n` chunks. */
  function ExtractPrefix(htmlHash: string, chunks: seq<LayoutBlock>, n: nat): map<string, seq<int>>
    requires n <= |chunks|
  {
    if n == 0 then map[]
    else
      var m := ExtractPrefix(htmlHash, chunks, n - 1);
      if Selected(chunks[n - 1]) then m[NameAt(htmlHash, n - 1) := chunks[n - 1].bbox] else m
  }

  lemma {:induction false} ExtractPrefixContents(htmlHash: string, chunks: seq<LayoutBlock>, n: nat)
    requires n <= |chunks|
    ensures forall i :: 0 <= i < n && Selected(chunks[i]) ==>
      NameAt(htmlHash, i) in ExtractPrefix(htmlHash, chunks, n)
      && ExtractPrefix(htmlHash, chunks, n)[NameAt(htmlHash, i)] == chunks[i].bbox
    ensures forall key :: key in ExtractPrefix(htmlHash, chunks, n) ==>
      exists i :: 0 <= i < n && Selected(chunks[i]) && key == NameAt(htmlHash, i)
  {
    if n > 0 {
      ExtractPrefixContents(htmlHash, chunks, n - 1);
      forall i | 0 <= i < n - 1 && Selected(chunks[i]) && Selected(chunks[n - 1])
        ensures NameAt(htmlHash, i) != NameAt(htmlHash, n - 1)
      {
        if NameAt(htmlHash, i) == NameAt(htmlHash, n - 1) {
          ImageNameInjective(htmlHash, i + 1, n);
        }
      }
    }
  }

  /** `extract_images(html, chunks, image)`: one entry per selected chunk,
      keyed by the page digest and the chunk's 1-based position, holding the
      chunk's box; no other keys. */
  function ExtractImages(hash: string -> string, html: string, chunks: seq<LayoutBlock>): (r: map<string, seq<int>>)
    ensures forall i :: 0 <= i < |chunks| && Selected(chunks[i]) ==>
      NameAt(hash(html), i) in r && r[NameAt(hash(html), i)] == chunks[i].bbox
    ensures forall key :: key in r ==>
      exists i :: 0 <= i < |chunks| && Selected(chunks[i]) && key == NameAt(hash(html), i)
    ensures forall i :: 0 <= i < |chunks| && !Selected(chunks[i]) ==> NameAt(hash(html), i) !in r
  {
    var r := ExtractPrefix(hash(html), chunks, |chunks|);
    ExtractPrefixContents(hash(html), chunks, |chunks|);
    forall i | 0 <= i < |chunks| && !Selected(chunks[i])
      ensures NameAt(hash(html), i) !in r
    {
      if NameAt(hash(html), i) in r {
        var j :| 0 <= j < |chunks| && Selected(chunks[j]) && NameAt(hash(html), i) == NameAt(hash(html), j);
        ImageNameInjective(hash(html), i + 1, j + 1);
      }
    }
    r
  }

  /** Which image chunks are cropped: one whose content lacks "img" entirely
      is, one whose content begins with "img" is not. */
  lemma SelectionByFind(c: LayoutBlock)
    requires c.labelName in ImageLabels
    ensures Selected(c) <==> !StartsWith(c.content, "img")
  {
    FindZeroIffStartsWith(c.content, "img");
  }
}

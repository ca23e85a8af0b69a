/** `parse_layout` (chandra/output.py, and its variant without a bbox
    fallback in chandra/layout.py): the top-level `<div>`s of the model's
    markup become layout blocks whose boxes are rescaled from the model's
    1024 x 1024 grid to the image's pixel size.

    HTML parsing itself is not modelled: the input is the sequence of
    top-level `<div>`s with their `data-label` attribute, what `json.loads`
    and `list(map(int, ...))` make of their `data-bbox` attribute, and their
    inner markup as serialised by the parser. */
module Layout {
  import opened Wrappers

  /** The `data-bbox` attribute after `json.loads` and `list(map(int, ...))`:
      - `ParseFail`: the attribute is missing (`json.loads(None)` raises) or
        is not JSON;
      - `Nums(values)`: JSON whose elements all convert with `int()`, given
        here already converted;
      - `Other`: JSON that parses but whose conversion raises. */
  datatype BboxJson = ParseFail | Nums(values: seq<int>) | Other

  /** One top-level `<div>` of the markup. */
  datatype Div = Div(labelAttr: Option<string>, bbox: BboxJson, inner: string)

  /** `LayoutBlock(bbox, label, content)`; `label` is a Dafny keyword, hence `labelName`. */
  datatype LayoutBlock = LayoutBlock(bbox: seq<int>, labelName: string, content: string)

  /** An exception escaping the parser (`TypeError`, `ValueError`,
      `IndexError` or a JSON decoding error). */
  datatype LayoutError = BadBbox

  /** Side of the model's normalised coordinate grid. */
  const GridSize: int := 1024
  /** Box used by output.py when `data-bbox` cannot be parsed. */
  const FallbackBbox: seq<int> := [0, 0, 1, 1]
  /** Label of a `<div>` without `data-label`. */
  const DefaultLabel: string := "block"

  function Max(a: int, b: int): int { if a >= b then a else b }
  function Min(a: int, b: int): int { if a <= b then a else b }

  /** `a <= b` scales to `a * d <= b * d` for `d >= 0`. */
  lemma MulMonotone(a: int, b: int, d: nat)
    requires a <= b
    ensures a * d <= b * d
  {
    assert b * d - a * d == (b - a) * d;
  }

  /** Euclidean division of a non-negative number: the quotient times the
      divisor is at most the number and within one divisor of it. */
  lemma NatDivBounds(n: nat, d: int)
    requires d > 0
    ensures 0 <= n / d
    ensures (n / d) * d <= n < (n / d) * d + d
  {
    var q, r := n / d, n % d;
    assert n == d * q + r && 0 <= r < d;
    assert q * d == d * q;
  }

  /** Division rounding toward zero, as Python's `int()` of a quotient. */
  function TruncDiv(n: int, d: int): (q: int)
    requires d > 0
    ensures n >= 0 ==> 0 <= q && q * d <= n < q * d + d
    ensures n < 0 ==> q <= 0 && q * d - d < n <= q * d
  {
    if n >= 0 then
      NatDivBounds(n, d);
      n / d
    else
      var p := (-n) / d;
      NatDivBounds(-n, d);
      assert (-p) * d == -(p * d);
      -p
  }

  /** Euclidean division of non-negative numbers is monotone. */
  lemma NatDivMonotone(a: nat, b: nat, d: int)
    requires d > 0 && a <= b
    ensures a / d <= b / d
  {
    NatDivBounds(a, d);
    NatDivBounds(b, d);
    assert (b / d + 1) * d == (b / d) * d + d;
    if a / d > b / d {
      MulMonotone(b / d + 1, a / d, d);
    }
  }

  /** Truncating division is monotone in the dividend. */
  lemma TruncDivMonotone(n1: int, n2: int, d: int)
    requires d > 0 && n1 <= n2
    ensures TruncDiv(n1, d) <= TruncDiv(n2, d)
  {
    if 0 <= n1 {
      NatDivMonotone(n1, n2, d);
    } else if n2 < 0 {
      NatDivMonotone(-n2, -n1, d);
    }
  }

  /** `int(v * (dim / 1024))`. As 1024 is a power of two the floating-point
      product is exact while `|v * dim| < 2^53`, so this is exact integer
      arithmetic there. */
  function Scale(v: int, dim: nat): int {
    TruncDiv(v * dim, GridSize)
  }

  /** The normalised box: the four coordinates rescaled, the top-left corner
      clamped at 0 and the bottom-right corner at the image size. */
  function Normalize(raw: seq<int>, width: nat, height: nat): (b: seq<int>)
    requires |raw| >= 4
    ensures |b| == 4
    ensures b[0] >= 0 && b[1] >= 0 && b[2] <= width && b[3] <= height
  {
    [ Max(0, Scale(raw[0], width)),
      Max(0, Scale(raw[1], height)),
      Min(Scale(raw[2], width), width),
      Min(Scale(raw[3], height), height) ]
  }

  /** Whether a bbox attribute yields four numbers: always when it is a list
      of at least four numbers, and, with the fallback, also when it does not
      parse at all. */
  predicate BboxUsable(j: BboxJson, fallback: bool) {
    (j.ParseFail? && fallback) || (j.Nums? && |j.values| >= 4)
  }

  /** The numbers a box is computed from: the attribute's own, or the
      fallback box in place of an unparseable attribute. */
  function RawBbox(j: BboxJson, fallback: bool): (r: Result<seq<int>, LayoutError>)
    ensures r.Success? <==> BboxUsable(j, fallback)
    ensures r.Success? ==> |r.value| >= 4
    ensures r.Success? && j.Nums? ==> r.value == j.values
    ensures r.Success? && j.ParseFail? ==> r.value == FallbackBbox
  {
    match j
    case ParseFail => if fallback then Success(FallbackBbox) else Failure(BadBbox)
    case Nums(vs) => if |vs| >= 4 then Success(vs) else Failure(BadBbox)
    case Other => Failure(BadBbox)
  }

  /** One iteration of the parsing loop. */
  function ParseBlock(d: Div, width: nat, height: nat, fallback: bool): Result<LayoutBlock, LayoutError>
  {
    var raw :- RawBbox(d.bbox, fallback);
    Success(LayoutBlock(Normalize(raw, width, height), d.labelAttr.GetOr(DefaultLabel), d.inner))
  }

  /** The parsing loop: one block per `<div>`, in order, or the exception of
      the first `<div>` whose box cannot be read. */
  function ParseDivs(divs: seq<Div>, width: nat, height: nat, fallback: bool): (r: Result<seq<LayoutBlock>, LayoutError>)
    ensures r.Success? <==> forall i :: 0 <= i < |divs| ==> BboxUsable(divs[i].bbox, fallback)
    ensures r.Success? ==> |r.value| == |divs|
    ensures r.Success? ==> forall i :: 0 <= i < |divs| ==> ParseBlock(divs[i], width, height, fallback) == Success(r.value[i])
  {
    if |divs| == 0 then
      Success([])
    else
      var b :- ParseBlock(divs[0], width, height, fallback);
      var rest :- ParseDivs(divs[1..], width, height, fallback);
      assert forall i :: 1 <= i < |divs| ==> divs[i] == divs[1..][i - 1];
      Success([b] + rest)
  }

  /** `parse_layout` of chandra/output.py (with the `[0, 0, 1, 1]` fallback). */
  function ParseLayout(divs: seq<Div>, width: nat, height: nat): (r: Result<seq<LayoutBlock>, LayoutError>)
    ensures r.Success? <==> forall i :: 0 <= i < |divs| ==>
      !divs[i].bbox.Other? && !(divs[i].bbox.Nums? && |divs[i].bbox.values| < 4)
    ensures r.Success? ==> |r.value| == |divs|
    ensures r.Success? ==> forall i :: 0 <= i < |divs| ==>
      && r.value[i].labelName == divs[i].labelAttr.GetOr(DefaultLabel)
      && r.value[i].content == divs[i].inner
      && |r.value[i].bbox| == 4
      && r.value[i].bbox[0] >= 0 && r.value[i].bbox[1] >= 0
      && r.value[i].bbox[2] <= width && r.value[i].bbox[3] <= height
  {
    ParseDivs(divs, width, height, true)
  }

  /** `parse_layout` of chandra/layout.py (no fallback). */
  function ParseLayoutStrict(divs: seq<Div>, width: nat, height: nat): (r: Result<seq<LayoutBlock>, LayoutError>)
    ensures r.Success? <==> forall i :: 0 <= i < |divs| ==> divs[i].bbox.Nums? && |divs[i].bbox.values| >= 4
    ensures r.Success? ==> |r.value| == |divs|
    ensures r.Success? ==> forall i :: 0 <= i < |divs| ==>
      && r.value[i].labelName == divs[i].labelAttr.GetOr(DefaultLabel)
      && r.value[i].content == divs[i].inner
      && r.value[i].bbox == Normalize(divs[i].bbox.values, width, height)
  {
    ParseDivs(divs, width, height, false)
  }

  /** Each coordinate is the attribute's number rescaled with truncation
      toward zero, x by the width and y by the height, then clamped; an
      unparseable attribute counts as `[0, 0, 1, 1]`. */
  lemma BlockCoordinates(divs: seq<Div>, width: nat, height: nat, i: nat)
    requires ParseLayout(divs, width, height).Success?
    requires i < |divs|
    ensures var b := ParseLayout(divs, width, height).value[i].bbox;
            var raw := if divs[i].bbox.ParseFail? then FallbackBbox else divs[i].bbox.values;
            && |raw| >= 4
            && b[0] == Max(0, Scale(raw[0], width))
            && b[1] == Max(0, Scale(raw[1], height))
            && b[2] == Min(Scale(raw[2], width), width)
            && b[3] == Min(Scale(raw[3], height), height)
  {
    assert ParseBlock(divs[i], width, height, true) == Success(ParseLayout(divs, width, height).value[i]);
  }

  /** Where the strict parser succeeds, the parser with the fallback returns
      the same blocks. */
  lemma StrictAgreesWithFallback(divs: seq<Div>, width: nat, height: nat)
    requires ParseLayoutStrict(divs, width, height).Success?
    ensures ParseLayout(divs, width, height) == ParseLayoutStrict(divs, width, height)
  {
    var s := ParseLayoutStrict(divs, width, height).value;
    var f := ParseLayout(divs, width, height).value;
    forall i | 0 <= i < |divs|
      ensures f[i] == s[i]
    {
      assert ParseBlock(divs[i], width, height, false) == ParseBlock(divs[i], width, height, true);
    }
    assert f == s;
  }

  /** Rescaling is monotone in the coordinate. */
  lemma ScaleMonotone(v1: int, v2: int, dim: nat)
    requires v1 <= v2
    ensures Scale(v1, dim) <= Scale(v2, dim)
  {
    MulMonotone(v1, v2, dim);
    TruncDivMonotone(v1 * dim, v2 * dim, GridSize);
  }

  /** Rescaling by a side of 1024 pixels is the identity. */
  lemma ScaleAtGridSize(v: int)
    ensures Scale(v, 1024) == v
  {
  }

  /** Doubling the width does not always double the x coordinates: the
      truncation happens after the product. */
  lemma DoublingNotExact()
    ensures Scale(1, 512) == 0 && Scale(1, 1024) == 1
  {
  }

  /** Nothing orders the corners and only one side of each is clamped: a
      box given right-to-left keeps `x0 > x1`, and a top-left corner past
      the image stays past it. */
  lemma CornersNotOrdered()
    ensures var r := ParseLayout([Div(None, Nums([1024, 0, 0, 1024]), "")], 1024, 1024);
            r.Success? && r.value[0].bbox[0] > r.value[0].bbox[2]
    ensures var r := ParseLayout([Div(None, Nums([2048, 0, 2048, 0]), "")], 1024, 1024);
            r.Success? && r.value[0].bbox[0] > 1024
  {
    var d := Div(None, Nums([1024, 0, 0, 1024]), "");
    assert ParseBlock(d, 1024, 1024, true) == Success(LayoutBlock([1024, 0, 0, 1024], DefaultLabel, ""));
    var e := Div(None, Nums([2048, 0, 2048, 0]), "");
    assert ParseBlock(e, 1024, 1024, true) == Success(LayoutBlock([2048, 0, 1024, 0], DefaultLabel, ""));
  }
}

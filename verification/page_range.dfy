/** Page selection of chandra/input.py and chandra/load.py: `parse_range_str`
    (comma-separated page numbers and inclusive `a-b` ranges, deduplicated
    and sorted), the guard in `load_file` that parses only a non-empty range
    string, and the page filter of `load_pdf_images`. Page numbers are the
    0-based indices of the document's pages.

    An exception raised while parsing (`ValueError` from `int()` or from
    unpacking the pieces of a range) is `None`. */
module PageRange {
  import opened Wrappers
  import opened Text
  import opened Decimal

  /** `list(range(a, b + 1))`. */
  function Range(a: int, b: int): (r: seq<int>)
    ensures |r| == if a > b then 0 else b - a + 1
    ensures forall i :: 0 <= i < |r| ==> r[i] == a + i
    decreases b - a
  {
    if a > b then [] else [a] + Range(a + 1, b)
  }

  /** The members of a range are the integers between its bounds. */
  lemma RangeMembers(a: int, b: int, k: int)
    ensures k in Range(a, b) <==> a <= k <= b
  {
    if a <= k <= b {
      assert Range(a, b)[k - a] == k;
    }
  }

  /** The pages one comma-separated item stands for: a range when it holds
      a `-`, which must split it into exactly two integers, otherwise a
      single integer. */
  function ParseItem(item: string): Option<seq<int>>
  {
    if '-' in item then
      var parts := Split(item, '-');
      if |parts| != 2 then None
      else
        var a :- PyInt(parts[0]);
        var b :- PyInt(parts[1]);
        Some(Range(a, b))
    else
      var n :- PyInt(item);
      Some([n])
  }

  /** Page `k` is among those item `item` stands for. */
  predicate Contributes(item: string, k: int) {
    ParseItem(item).Some? && k in ParseItem(item).value
  }

  /** An item without `-` stands for the one number `int()` reads from it. */
  lemma SingleItem(item: string)
    requires '-' !in item
    ensures ParseItem(item).Some? <==> PyInt(item).Some?
    ensures ParseItem(item).Some? ==> ParseItem(item).value == [PyInt(item).value]
  {
  }

  /** `str(n)` as an item stands for `n`. */
  lemma SingleNumberItem(n: nat)
    ensures ParseItem(NatToString(n)) == Some([n])
  {
    PyIntOfIntToString(n);
  }

  /** The decimal forms of two numbers around a `-` split into those two
      forms. */
  lemma SplitRangeItem(a: nat, b: nat)
    ensures '-' in NatToString(a) + "-" + NatToString(b)
    ensures Split(NatToString(a) + "-" + NatToString(b), '-') == [NatToString(a), NatToString(b)]
  {
    var sa := NatToString(a);
    var sb := NatToString(b);
    assert '-' !in sa && '-' !in sb;
    assert (sa + "-" + sb)[|sa|] == '-';
    SplitAfterSep(sa, sb, '-');
    SplitNoSep(sb, '-');
  }

  /** `"a-b"` parses to the range from `a` to `b`. */
  lemma RangeItemParses(a: nat, b: nat)
    ensures ParseItem(NatToString(a) + "-" + NatToString(b)) == Some(Range(a, b))
  {
    SplitRangeItem(a, b);
    PyIntOfIntToString(a);
    PyIntOfIntToString(b);
  }

  /** `"a-b"` stands for exactly the pages from `a` to `b` inclusive, and for
      none when `a > b`. */
  lemma RangeItem(a: nat, b: nat)
    ensures ParseItem(NatToString(a) + "-" + NatToString(b)) == Some(Range(a, b))
    ensures forall k :: Contributes(NatToString(a) + "-" + NatToString(b), k) <==> a <= k <= b
  {
    var item := NatToString(a) + "-" + NatToString(b);
    RangeItemParses(a, b);
    forall k
      ensures Contributes(item, k) <==> a <= k <= b
    {
      RangeMembers(a, b, k);
    }
  }

  /** An item with two or more `-` raises: it does not unpack into two
      bounds. */
  lemma ManyDashesFail(item: string)
    requires CountIn(item, {'-'}) >= 2
    ensures ParseItem(item) == None
  {
    SplitCount(item, '-');
    if '-' !in item {
      CountNone(item, '-');
    }
  }

  /** A string without `c` counts no `c`. */
  lemma {:induction false} CountNone(s: string, c: char)
    requires c !in s
    ensures CountIn(s, {c}) == 0
    decreases |s|
  {
    if |s| > 0 {
      CountNone(s[1..], c);
    }
  }

  /** A negative number is not a valid item: "-1" reads as a range with an
      empty lower bound. */
  lemma NegativeItemFails()
    ensures ParseItem("-1") == None
  {
    assert "-1"[0] == '-';
    SplitAfterSep("", "1", '-');
    SplitNoSep("1", '-');
    assert "" + "-" + "1" == "-1";
    PyIntBlank("");
  }

  /** No item raises. */
  predicate AllItemsParse(items: seq<string>) {
    forall i :: 0 <= i < |items| ==> ParseItem(items[i]).Some?
  }

  /** The items' pages in order (the loop building `page_lst`), or `None`
      as soon as one item raises. */
  function ParseItems(items: seq<string>): (r: Option<seq<int>>)
    ensures r.Some? <==> AllItemsParse(items)
    ensures r.Some? ==> forall k :: k in r.value <==> exists i :: 0 <= i < |items| && Contributes(items[i], k)
  {
    if |items| == 0 then Some([])
    else
      var head :- ParseItem(items[0]);
      var tail :- ParseItems(items[1..]);
      assert forall i :: 1 <= i < |items| ==> items[i] == items[1..][i - 1];
      Some(head + tail)
  }

  predicate StrictlyIncreasing(s: seq<int>) {
    forall i, j :: 0 <= i < j < |s| ==> s[i] < s[j]
  }

  /** Inserts `x` into a strictly increasing sequence, unless already there. */
  function Insert(s: seq<int>, x: int): (r: seq<int>)
    requires StrictlyIncreasing(s)
    ensures StrictlyIncreasing(r)
    ensures forall k :: k in r <==> k in s || k == x
  {
    if |s| == 0 then [x]
    else if x < s[0] then
      assert forall j :: 0 <= j < |s| ==> x < s[j];
      [x] + s
    else if x == s[0] then s
    else
      var rest := Insert(s[1..], x);
      forall j | 0 <= j < |rest|
        ensures s[0] < rest[j]
      {
        assert rest[j] in rest;
        if rest[j] != x {
          var m :| 0 <= m < |s[1..]| && s[1..][m] == rest[j];
          assert s[1..][m] == s[m + 1];
        }
      }
      assert s == [s[0]] + s[1..];
      [s[0]] + rest
  }

  /** `sorted(list(set(xs)))`: the members of `xs`, each once, ascending. */
  function SortUnique(xs: seq<int>): (r: seq<int>)
    ensures StrictlyIncreasing(r)
    ensures forall k :: k in r <==> k in xs
  {
    if |xs| == 0 then []
    else
      var init := xs[..|xs| - 1];
      assert xs == init + [xs[|xs| - 1]];
      Insert(SortUnique(init), xs[|xs| - 1])
  }

  /** The first element of a strictly increasing sequence is its least. */
  lemma FirstIsLeast(s: seq<int>, k: int)
    requires StrictlyIncreasing(s)
    requires k in s
    ensures s[0] <= k
  {
    var j :| 0 <= j < |s| && s[j] == k;
    if j > 0 {
      assert s[0] < s[j];
    }
  }

  /** A strictly increasing sequence is determined by its members, so
      `SortUnique` is the only order-and-deduplicate result there is. */
  lemma {:induction false} StrictlyIncreasingUnique(s: seq<int>, t: seq<int>)
    requires StrictlyIncreasing(s) && StrictlyIncreasing(t)
    requires forall k :: k in s <==> k in t
    ensures s == t
    decreases |s|
  {
    assert |t| > 0 ==> t[0] in t;
    if |s| > 0 {
      HeadsAgree(s, t);
      TailMembers(s, t);
      StrictlyIncreasingUnique(s[1..], t[1..]);
      assert s == [s[0]] + s[1..] && t == [t[0]] + t[1..];
    }
  }

  /** Two strictly increasing sequences with the same members start alike. */
  lemma HeadsAgree(s: seq<int>, t: seq<int>)
    requires StrictlyIncreasing(s) && StrictlyIncreasing(t)
    requires forall k :: k in s <==> k in t
    requires |s| > 0
    ensures |t| > 0 && s[0] == t[0]
  {
    assert s[0] in s && s[0] in t;
    FirstIsLeast(t, s[0]);
    assert t[0] in t && t[0] in s;
    FirstIsLeast(s, t[0]);
  }

  /** Two strictly increasing sequences with the same members and the same
      first element have the same members after it. */
  lemma TailMembers(s: seq<int>, t: seq<int>)
    requires StrictlyIncreasing(s) && StrictlyIncreasing(t)
    requires forall k :: k in s <==> k in t
    requires |s| > 0 && |t| > 0 && s[0] == t[0]
    ensures forall k :: k in s[1..] <==> k in t[1..]
  {
    forall k
      ensures k in s[1..] ==> k in t[1..]
      ensures k in t[1..] ==> k in s[1..]
    {
      if k in s[1..] {
        TailMember(s, t, k);
      }
      if k in t[1..] {
        TailMember(t, s, k);
      }
    }
  }

  lemma TailMember(s: seq<int>, t: seq<int>, k: int)
    requires StrictlyIncreasing(s)
    requires forall k :: k in s <==> k in t
    requires |s| > 0 && |t| > 0 && s[0] == t[0]
    requires k in s[1..]
    ensures k in t[1..]
  {
    var m :| 0 <= m < |s| - 1 && s[1..][m] == k;
    assert s[m + 1] == k && s[0] < s[m + 1];
    assert k in s;
    var i :| 0 <= i < |t| && t[i] == k;
    assert i > 0;
    assert t[1..][i - 1] == k;
  }

  /** `parse_range_str(range_str)`. */
  function ParseRangeStr(rangeStr: string): (r: Option<seq<int>>)
    ensures r.Some? <==> AllItemsParse(Split(rangeStr, ','))
    ensures r.Some? ==> StrictlyIncreasing(r.value)
    ensures r.Some? ==> forall k :: k in r.value <==>
      exists i :: 0 <= i < |Split(rangeStr, ',')| && Contributes(Split(rangeStr, ',')[i], k)
  {
    var pages := ParseItems(Split(rangeStr, ','));
    if pages.None? then None else Some(SortUnique(pages.value))
  }

  /** Any ascending, duplicate-free list of exactly the pages the items
      stand for is the parse result. */
  lemma ParseRangeStrIsSortedUnion(rangeStr: string, t: seq<int>)
    requires ParseRangeStr(rangeStr).Some?
    requires StrictlyIncreasing(t)
    requires forall k :: k in t <==>
      exists i :: 0 <= i < |Split(rangeStr, ',')| && Contributes(Split(rangeStr, ',')[i], k)
    ensures ParseRangeStr(rangeStr).value == t
  {
    StrictlyIncreasingUnique(ParseRangeStr(rangeStr).value, t);
  }

  /** A reversed range parses, to no page at all. */
  lemma ReversedRangeIsEmpty()
    ensures ParseRangeStr("5-3") == Some([])
  {
    var item := "5-3";
    assert NatToString(5) == "5" && NatToString(3) == "3";
    assert item == NatToString(5) + "-" + NatToString(3);
    RangeItemParses(5, 3);
    assert ParseItem(item) == Some([]);
    assert forall i :: 0 <= i < |item| ==> item[i] != ',';
    SplitNoSep(item, ',');
    var items: seq<string> := [item];
    assert items[0] == item && items[1..] == [];
    assert ParseItems(items[1..]) == Some([]);
    assert ParseItems(items) == Some([] + []);
  }

  /** The empty string is not a valid range string. */
  lemma EmptyRangeStrFails()
    ensures ParseRangeStr("") == None
  {
    PyIntBlank("");
  }

  /** A page list selects everything when it is absent or empty (`not
      page_range`). */
  predicate SelectsAll(pageRange: Option<seq<int>>) {
    pageRange.None? || |pageRange.value| == 0
  }

  /** The page filter of `load_pdf_images`: the indices below `numPages`
      that are selected, ascending. */
  function PageFilter(numPages: nat, pageRange: Option<seq<int>>): (r: seq<int>)
    ensures |r| <= numPages
    ensures StrictlyIncreasing(r)
    ensures forall k :: k in r <==> 0 <= k < numPages && (SelectsAll(pageRange) || k in pageRange.value)
  {
    if numPages == 0 then []
    else
      var r := PageFilter(numPages - 1, pageRange);
      var p := numPages - 1;
      forall i | 0 <= i < |r|
        ensures r[i] < p
      {
        assert r[i] in r;
      }
      if SelectsAll(pageRange) || p in pageRange.value then r + [p] else r
  }

  /** Without a selection every page is kept, in document order. */
  lemma PageFilterAll(numPages: nat, pageRange: Option<seq<int>>)
    requires SelectsAll(pageRange)
    ensures PageFilter(numPages, pageRange) == Range(0, numPages - 1)
  {
    forall k
      ensures k in PageFilter(numPages, pageRange) <==> k in Range(0, numPages - 1)
    {
      RangeMembers(0, numPages - 1, k);
    }
    StrictlyIncreasingUnique(PageFilter(numPages, pageRange), Range(0, numPages - 1));
  }

  /** Parsing the configured range fails. */
  datatype RangeError = BadRange

  /** The guard of `load_file`: only a non-empty range string is parsed; a
      missing or empty one selects every page. */
  function LoadPageRange(pageRange: Option<string>): (r: Result<Option<seq<int>>, RangeError>)
    ensures (pageRange.None? || pageRange.value == "") ==> r == Success(None)
    ensures pageRange.Some? && pageRange.value != "" ==>
      (r.Success? <==> ParseRangeStr(pageRange.value).Some?)
    ensures r.Success? && r.value.Some? ==> pageRange.Some? && r.value == ParseRangeStr(pageRange.value)
  {
    if pageRange.Some? && |pageRange.value| > 0 then
      match ParseRangeStr(pageRange.value)
      case None => Failure(BadRange)
      case Some(pages) => Success(Some(pages))
    else Success(None)
  }

  /** `load_file`'s choice of pages: for a PDF the filtered page indices,
      for any other file its one image (index 0). The range string is parsed
      in both cases, so a bad one raises even for an image file. */
  function LoadFilePages(isPdf: bool, numPages: nat, pageRange: Option<string>): (r: Result<seq<int>, RangeError>)
    ensures r.Success? <==> LoadPageRange(pageRange).Success?
    ensures r.Success? && !isPdf ==> r.value == [0]
    ensures r.Success? && isPdf ==> forall k :: k in r.value <==>
      0 <= k < numPages && (SelectsAll(LoadPageRange(pageRange).value) || k in LoadPageRange(pageRange).value.value)
  {
    var pages :- LoadPageRange(pageRange);
    if isPdf then Success(PageFilter(numPages, pages)) else Success([0])
  }

  /** The guard matters: an empty range string, which would not parse,
      selects every page instead of raising. */
  lemma EmptyRangeSelectsAll(numPages: nat)
    ensures ParseRangeStr("") == None
    ensures LoadFilePages(true, numPages, Some("")) == Success(Range(0, numPages - 1))
  {
    EmptyRangeStrFails();
    PageFilterAll(numPages, None);
  }

  /** A reversed range such as "5-3" parses to no page, and an empty page
      list selects every page: asking for pages 5 down to 3 loads the whole
      document. */
  lemma ReversedRangeSelectsAll(numPages: nat)
    ensures LoadFilePages(true, numPages, Some("5-3")) == Success(Range(0, numPages - 1))
  {
    ReversedRangeIsEmpty();
    PageFilterAll(numPages, Some([]));
  }
}

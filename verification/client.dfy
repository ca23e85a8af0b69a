/** `ChandraOCRClient` (chandra/parser.py): base-URL normalisation, the
    prompt-mode map, and the assembly of page results from the model's
    markup in `parse_images` and `parse_image`.

    Parsing the markup is given as a `Markup` of uninterpreted functions:
    the top-level `<div>`s of a document, what the parser finds in a cell's
    markup, and the Markdown conversion (which may raise). */
module Client {
  import opened Wrappers
  import opened Text
  import opened Layout
  import opened CellText
  import opened Markdown
  import opened Orchestrator

  const ApiSuffix: string := "/v1"
  const DefaultBaseUrl: string := "http://localhost:8000"

  /** The URL's end without trailing slashes already names the API version. */
  predicate HasApiSuffix(url: string) {
    EndsWith(RStripChar(url, '/'), ApiSuffix)
  }

  /** Appending the suffix to a URL gives one that has it, with no trailing
      slash to strip. */
  lemma AppendSuffix(base: string)
    ensures RStripChar(base + ApiSuffix, '/') == base + ApiSuffix
    ensures HasApiSuffix(base + ApiSuffix)
  {
    var u := base + ApiSuffix;
    assert u[|u| - 1] == '1';
    assert u[|u| - |ApiSuffix|..] == ApiSuffix;
  }

  /** The base-URL normalisation of `__init__`: a URL that, trailing slashes
      aside, ends in "/v1" is kept verbatim, slashes included; any other
      loses its trailing slashes and gets "/v1" appended. */
  function NormalizeBaseUrl(url: string): (r: string)
    ensures HasApiSuffix(r)
    ensures HasApiSuffix(url) ==> r == url
    ensures !HasApiSuffix(url) ==> r == RStripChar(url, '/') + ApiSuffix
  {
    if HasApiSuffix(url) then url
    else
      AppendSuffix(RStripChar(url, '/'));
      RStripChar(url, '/') + ApiSuffix
  }

  /** Normalising twice is normalising once. */
  lemma NormalizeBaseUrlIdempotent(url: string)
    ensures NormalizeBaseUrl(NormalizeBaseUrl(url)) == NormalizeBaseUrl(url)
  {
  }

  /** The default server address gains the API path. */
  lemma NormalizeDefaultUrl()
    ensures NormalizeBaseUrl(DefaultBaseUrl) == "http://localhost:8000/v1"
  {
    var d := DefaultBaseUrl;
    assert d[|d| - 1] != '/';
    assert RStripChar(d, '/') == d;
    assert d[|d| - 3..] != ApiSuffix by {
      assert d[|d| - 3] != ApiSuffix[0];
    }
    assert d + ApiSuffix == "http://localhost:8000/v1";
  }

  /** A URL ending in "/v1/" keeps its trailing slash. */
  lemma NormalizeKeepsSlashAfterSuffix()
    ensures NormalizeBaseUrl("http://h/v1/") == "http://h/v1/"
  {
    var k := "http://h/v1/";
    var u := k[..|k| - 1];
    assert u[|u| - 1] != '/';
    assert RStripChar(u, '/') == u;
    assert RStripChar(k, '/') == u;
    assert u[|u| - 3..] == ApiSuffix;
  }

  /** Other trailing slashes are dropped before "/v1" is appended. */
  lemma NormalizeDropsTrailingSlashes()
    ensures NormalizeBaseUrl("http://h//") == "http://h/v1"
  {
    var h := "http://h//";
    var u := "http://h";
    assert u[|u| - 1] != '/';
    assert RStripChar(u, '/') == u;
    assert h[..|h| - 1][..|h| - 2] == u;
    assert RStripChar(h[..|h| - 1], '/') == u;
    assert RStripChar(h, '/') == u;
    assert u[|u| - 3..] != ApiSuffix by {
      assert u[|u| - 1] != ApiSuffix[2];
    }
    assert u + ApiSuffix == "http://h/v1";
  }

  /** `PROMPT_MODE_MAP`. */
  const PromptModeMap: map<string, string> := map["layout" := "ocr_layout", "plain" := "ocr"]

  /** `PROMPT_MODE_MAP.get(prompt_mode, prompt_mode)`. */
  function PromptType(mode: string): string
  {
    if mode in PromptModeMap then PromptModeMap[mode] else mode
  }

  /** The two short modes name the layout and plain prompts; any other mode,
      those prompt names included, is passed through as the prompt type, so
      mapping twice is mapping once. */
  lemma PromptTypeValues(mode: string)
    ensures PromptType("layout") == "ocr_layout" && PromptType("plain") == "ocr"
    ensures PromptType("ocr_layout") == "ocr_layout" && PromptType("ocr") == "ocr"
    ensures mode != "layout" && mode != "plain" ==> PromptType(mode) == mode
    ensures PromptType(PromptType(mode)) == PromptType(mode)
  {
    assert "ocr_layout" !in PromptModeMap;
    assert "ocr" !in PromptModeMap;
  }

  /** An input page: its pixel size and its content, which only the model
      looks at. */
  datatype PageImage = PageImage(width: nat, height: nat, pixels: seq<int>)

  /** `BatchInputItem(image, prompt, prompt_type)`. */
  datatype InputItem = InputItem(image: PageImage, prompt: Option<string>, promptType: Option<string>)

  /** Python truthiness of an optional string. */
  predicate Truthy(s: Option<string>) {
    s.Some? && |s.value| > 0
  }

  /** The batch item of one page. */
  function ItemFor(image: PageImage, mode: string, prompt: Option<string>): InputItem {
    InputItem(image, prompt, if Truthy(prompt) then None else Some(PromptType(mode)))
  }

  /** The batch of `parse_images`: one item per image, in order, each with
      either the caller's non-empty prompt or, failing that, the mapped
      prompt type, never both. */
  function BuildBatch(images: seq<PageImage>, mode: string, prompt: Option<string>): (r: seq<InputItem>)
    ensures |r| == |images|
    ensures forall i :: 0 <= i < |r| ==> r[i].image == images[i] && r[i].prompt == prompt
    ensures forall i :: 0 <= i < |r| ==> (r[i].promptType.Some? <==> !Truthy(r[i].prompt))
    ensures forall i :: 0 <= i < |r| && r[i].promptType.Some? ==> r[i].promptType.value == PromptType(mode)
  {
    seq(|images|, i requires 0 <= i < |images| => ItemFor(images[i], mode, prompt))
  }

  /** One entry of `cells`. */
  datatype Cell = Cell(bbox: seq<int>, category: string, text: string)

  /** `PageResultDict`. */
  datatype PageResult = PageResult(pageNo: nat, inputWidth: nat, inputHeight: nat, cells: seq<Cell>, mdContent: string)

  /** The parser and converter, as seen from the client. */
  datatype Markup = Markup(topLevelDivs: string -> seq<Div>,
                           fragment: string -> Fragment,
                           convert: string -> Option<string>)

  /** The cell of one layout block. */
  function CellOf(m: Markup, b: LayoutBlock): Cell {
    Cell(b.bbox, b.labelName, CellText.CellText(b.labelName, m.fragment(b.content)))
  }

  /** The page result of page `idx`, built from the model's output `raw`:
      one cell per top-level `<div>`, in order, plus the Markdown of the
      whole page. A box that cannot be read raises. */
  function AssemblePage(m: Markup, idx: nat, raw: string, image: PageImage, includeHeadersFooters: bool)
    : (r: Result<PageResult, LayoutError>)
    ensures var divs := m.topLevelDivs(raw);
            r.Success? <==> ParseLayout(divs, image.width, image.height).Success?
    ensures var divs := m.topLevelDivs(raw);
            r.Success? ==>
              && r.value.pageNo == idx
              && r.value.inputWidth == image.width && r.value.inputHeight == image.height
              && |r.value.cells| == |divs|
              && r.value.mdContent == ParseMarkdown(m.convert, divs, includeHeadersFooters)
              && forall j :: 0 <= j < |divs| ==>
                   && r.value.cells[j].category == divs[j].labelAttr.GetOr(DefaultLabel)
                   && r.value.cells[j].bbox == ParseLayout(divs, image.width, image.height).value[j].bbox
                   && r.value.cells[j].text == CellText.CellText(r.value.cells[j].category, m.fragment(divs[j].inner))
  {
    var divs := m.topLevelDivs(raw);
    var blocks :- ParseLayout(divs, image.width, image.height);
    var cells := seq(|blocks|, i requires 0 <= i < |blocks| => CellOf(m, blocks[i]));
    Success(PageResult(idx, image.width, image.height, cells, ParseMarkdown(m.convert, divs, includeHeadersFooters)))
  }

  /** Every cell's box lies within the page: its top-left corner is not
      negative and its bottom-right corner is not past the image size. */
  lemma CellsInsidePage(m: Markup, idx: nat, raw: string, image: PageImage, includeHeadersFooters: bool, j: nat)
    requires AssemblePage(m, idx, raw, image, includeHeadersFooters).Success?
    requires j < |AssemblePage(m, idx, raw, image, includeHeadersFooters).value.cells|
    ensures var b := AssemblePage(m, idx, raw, image, includeHeadersFooters).value.cells[j].bbox;
            |b| == 4 && b[0] >= 0 && b[1] >= 0 && b[2] <= image.width && b[3] <= image.height
  {
  }

  /** A loop that stops at the first failure: the results of steps `0` to
      `n - 1`, or the first failure among them. */
  function Collect<T, E>(step: nat -> Result<T, E>, n: nat): (r: Result<seq<T>, E>)
    ensures r.Success? <==> forall i :: 0 <= i < n ==> step(i).Success?
    ensures r.Success? ==> |r.value| == n && forall i :: 0 <= i < n ==> step(i) == Success(r.value[i])
  {
    if n == 0 then Success([])
    else
      match Collect(step, n - 1)
      case Failure(e) => Failure(e)
      case Success(done) =>
        match step(n - 1)
        case Failure(e) => Failure(e)
        case Success(x) => Success(done + [x])
  }

  /** Page `i` of the loop of `parse_images` over `zip(results, batch)`. */
  function PageAt(m: Markup, results: seq<GenerationResult>, batch: seq<InputItem>,
                  includeHeadersFooters: bool, i: nat): Result<PageResult, LayoutError>
  {
    if i < |results| && i < |batch| then AssemblePage(m, i, results[i].raw, batch[i].image, includeHeadersFooters)
    else Failure(BadBbox)
  }

  /** The client's settings that shape a result. */
  datatype ClientConfig = ClientConfig(baseUrl: string, temperature: real, topP: real,
                                       numThreads: int, maxRetries: int, includeHeadersFooters: bool)

  /** `ChandraOCRClient(...)`: the settings as given, with the base URL
      normalised. */
  function NewClient(baseUrl: string, temperature: real, topP: real,
                     numThreads: int, maxRetries: int, includeHeadersFooters: bool): (c: ClientConfig)
    ensures HasApiSuffix(c.baseUrl)
    ensures HasApiSuffix(baseUrl) ==> c.baseUrl == baseUrl
    ensures !HasApiSuffix(baseUrl) ==> c.baseUrl == RStripChar(baseUrl, '/') + ApiSuffix
    ensures c.numThreads == numThreads && c.maxRetries == maxRetries
    ensures c.temperature == temperature && c.topP == topP
    ensures c.includeHeadersFooters == includeHeadersFooters
  {
    ClientConfig(NormalizeBaseUrl(baseUrl), temperature, topP, numThreads, maxRetries, includeHeadersFooters)
  }

  /** The default client: 8 threads, 6 retries, sampling (0.0, 0.1), headers
      and footers left out. */
  const DefaultClient: ClientConfig := NewClient(DefaultBaseUrl, 0.0, 0.1, 8, 6, false)

  /** The retry settings the client passes on; the retry sampling is
      `generate_vllm`'s default. */
  function RetrySettings(c: ClientConfig): RetryConfig {
    RetryConfig(c.maxRetries, Sampling(c.temperature, c.topP), DefaultRetry)
  }

  /** Failures escaping `parse_images`. */
  datatype ClientError = PoolFailure(poolError: Orchestrator.Error) | LayoutFailure(layoutError: LayoutError)

  /** `page` is what `parse_images` makes of `image` at position `idx`: the
      retry policy settles on some model output, and the page is assembled
      from it. */
  ghost predicate PageOf(c: ClientConfig, m: Markup, client: (InputItem, nat, Sampling) -> Reply,
                         image: PageImage, mode: string, prompt: Option<string>, idx: nat, page: PageResult)
  {
    exists res: GenerationResult, n: nat ::
      && RetryOutcome(ItemClient(client, ItemFor(image, mode, prompt)), NeedsRetry, RetrySettings(c), res, n)
      && AssemblePage(m, idx, res.raw, image, c.includeHeadersFooters) == Success(page)
  }

  /** `parse_images` makes some page of `image` at position `idx`. */
  ghost predicate HasPage(c: ClientConfig, m: Markup, client: (InputItem, nat, Sampling) -> Reply,
                          image: PageImage, mode: string, prompt: Option<string>, idx: nat)
  {
    exists p :: PageOf(c, m, client, image, mode, prompt, idx, p)
  }

  /** An image and its position determine its page. */
  lemma PageOfUnique(c: ClientConfig, m: Markup, client: (InputItem, nat, Sampling) -> Reply,
                     image: PageImage, mode: string, prompt: Option<string>, idx: nat, p1: PageResult, p2: PageResult)
    requires PageOf(c, m, client, image, mode, prompt, idx, p1)
    requires PageOf(c, m, client, image, mode, prompt, idx, p2)
    ensures p1 == p2
  {
    var oracle := ItemClient(client, ItemFor(image, mode, prompt));
    var r1: GenerationResult, n1: nat :| RetryOutcome(oracle, NeedsRetry, RetrySettings(c), r1, n1)
      && AssemblePage(m, idx, r1.raw, image, c.includeHeadersFooters) == Success(p1);
    var r2: GenerationResult, n2: nat :| RetryOutcome(oracle, NeedsRetry, RetrySettings(c), r2, n2)
      && AssemblePage(m, idx, r2.raw, image, c.includeHeadersFooters) == Success(p2);
    RetryOutcomeUnique(oracle, NeedsRetry, RetrySettings(c), r1, n1, r2, n2);
  }

  /** Once the retry policy has settled on an output, the image has a page
      exactly when that output's page can be assembled. */
  lemma PageOfFromOutcome(c: ClientConfig, m: Markup, client: (InputItem, nat, Sampling) -> Reply,
                          image: PageImage, mode: string, prompt: Option<string>, idx: nat,
                          res: GenerationResult, n: nat)
    requires RetryOutcome(ItemClient(client, ItemFor(image, mode, prompt)), NeedsRetry, RetrySettings(c), res, n)
    ensures HasPage(c, m, client, image, mode, prompt, idx)
      <==> AssemblePage(m, idx, res.raw, image, c.includeHeadersFooters).Success?
  {
    var oracle := ItemClient(client, ItemFor(image, mode, prompt));
    var a := AssemblePage(m, idx, res.raw, image, c.includeHeadersFooters);
    if a.Success? {
      assert PageOf(c, m, client, image, mode, prompt, idx, a.value);
    } else if HasPage(c, m, client, image, mode, prompt, idx) {
      var p :| PageOf(c, m, client, image, mode, prompt, idx, p);
      var r2: GenerationResult, n2: nat :| RetryOutcome(oracle, NeedsRetry, RetrySettings(c), r2, n2)
        && AssemblePage(m, idx, r2.raw, image, c.includeHeadersFooters) == Success(p);
      RetryOutcomeUnique(oracle, NeedsRetry, RetrySettings(c), res, n, r2, n2);
    }
  }

  /** The page loop, stated per page. */
  lemma CollectPages(m: Markup, results: seq<GenerationResult>, batch: seq<InputItem>, includeHeadersFooters: bool,
                     step: nat -> Result<PageResult, LayoutError>, n: nat)
    requires forall i: nat :: step(i) == PageAt(m, results, batch, includeHeadersFooters, i)
    ensures Collect(step, n).Success? <==> forall i :: 0 <= i < n ==> PageAt(m, results, batch, includeHeadersFooters, i).Success?
    ensures Collect(step, n).Success? ==> |Collect(step, n).value| == n && forall i :: 0 <= i < n ==>
      PageAt(m, results, batch, includeHeadersFooters, i) == Success(Collect(step, n).value[i])
  {
    var r := Collect(step, n);
    assert forall i :: 0 <= i < n ==> step(i) == PageAt(m, results, batch, includeHeadersFooters, i);
  }

  /** `results` are the outputs the retry policy settles on for the items
      of `batch`, after the numbers of calls recorded in `calls`. */
  ghost predicate Settled(c: ClientConfig, client: (InputItem, nat, Sampling) -> Reply, batch: seq<InputItem>,
                          results: seq<GenerationResult>, calls: seq<seq<Sampling>>)
  {
    && |results| == |batch| && |calls| == |batch|
    && forall i :: 0 <= i < |batch| ==>
         RetryOutcome(ItemClient(client, batch[i]), NeedsRetry, RetrySettings(c), results[i], |calls[i]|)
  }

  /** Given the outputs the retry policy settled on, an image has a page
      exactly when the page loop can assemble one from its output. */
  lemma HasPageIffAssembled(c: ClientConfig, m: Markup, client: (InputItem, nat, Sampling) -> Reply,
                            images: seq<PageImage>, mode: string, prompt: Option<string>,
                            batch: seq<InputItem>, results: seq<GenerationResult>, calls: seq<seq<Sampling>>, i: nat)
    requires batch == BuildBatch(images, mode, prompt)
    requires Settled(c, client, batch, results, calls)
    requires i < |images|
    ensures HasPage(c, m, client, images[i], mode, prompt, i) <==> PageAt(m, results, batch, c.includeHeadersFooters, i).Success?
  {
    assert batch[i] == ItemFor(images[i], mode, prompt);
    PageOfFromOutcome(c, m, client, images[i], mode, prompt, i, results[i], |calls[i]|);
  }

  /** When the page loop succeeds on the settled outputs, every image has a
      page. */
  lemma EveryImageHasPage(c: ClientConfig, m: Markup, client: (InputItem, nat, Sampling) -> Reply,
                          images: seq<PageImage>, mode: string, prompt: Option<string>,
                          batch: seq<InputItem>, results: seq<GenerationResult>, calls: seq<seq<Sampling>>,
                          pages: seq<PageResult>)
    requires batch == BuildBatch(images, mode, prompt)
    requires Settled(c, client, batch, results, calls) && |pages| == |images|
    requires forall i :: 0 <= i < |images| ==>
      PageAt(m, results, batch, c.includeHeadersFooters, i) == Success(pages[i])
    ensures forall i :: 0 <= i < |images| ==> HasPage(c, m, client, images[i], mode, prompt, i)
  {
    forall i | 0 <= i < |images|
      ensures HasPage(c, m, client, images[i], mode, prompt, i)
    {
      HasPageIffAssembled(c, m, client, images, mode, prompt, batch, results, calls, i);
    }
  }

  /** The pages the loop assembles from the settled outputs are the images'
      pages, numbered by position and sized as the images. */
  lemma PagesAreImagePages(c: ClientConfig, m: Markup, client: (InputItem, nat, Sampling) -> Reply,
                           images: seq<PageImage>, mode: string, prompt: Option<string>,
                           batch: seq<InputItem>, results: seq<GenerationResult>, calls: seq<seq<Sampling>>,
                           pages: seq<PageResult>)
    requires batch == BuildBatch(images, mode, prompt)
    requires Settled(c, client, batch, results, calls) && |pages| == |images|
    requires forall i :: 0 <= i < |images| ==>
      PageAt(m, results, batch, c.includeHeadersFooters, i) == Success(pages[i])
    ensures forall i :: 0 <= i < |images| ==>
      && pages[i].pageNo == i
      && pages[i].inputWidth == images[i].width && pages[i].inputHeight == images[i].height
      && PageOf(c, m, client, images[i], mode, prompt, i, pages[i])
  {
    forall i | 0 <= i < |images|
      ensures PageOf(c, m, client, images[i], mode, prompt, i, pages[i])
    {
      assert batch[i] == ItemFor(images[i], mode, prompt);
      assert AssemblePage(m, i, results[i].raw, images[i], c.includeHeadersFooters) == Success(pages[i]);
      assert RetryOutcome(ItemClient(client, batch[i]), NeedsRetry, RetrySettings(c), results[i], |calls[i]|);
    }
  }

  /** `parse_images(images, prompt_mode, prompt)`: one page per image, in
      order, numbered from 0. With fewer than one thread the pool raises;
      otherwise the call returns exactly when every image has a page. */
  method ParseImages(c: ClientConfig, m: Markup, client: (InputItem, nat, Sampling) -> Reply,
                     images: seq<PageImage>, mode: string, prompt: Option<string>)
    returns (r: Result<seq<PageResult>, ClientError>)
    ensures c.numThreads < 1 ==> r == Failure(PoolFailure(NoWorkers))
    ensures r.Success? <==> c.numThreads >= 1 && forall i :: 0 <= i < |images| ==>
      HasPage(c, m, client, images[i], mode, prompt, i)
    ensures c.numThreads >= 1 && r.Failure? ==> r.error.LayoutFailure?
    ensures r.Success? ==> |r.value| == |images|
    ensures r.Success? ==> forall i :: 0 <= i < |images| ==>
      && r.value[i].pageNo == i
      && r.value[i].inputWidth == images[i].width && r.value[i].inputHeight == images[i].height
      && PageOf(c, m, client, images[i], mode, prompt, i, r.value[i])
  {
    var batch := BuildBatch(images, mode, prompt);
    var results, calls := GenerateVllm(batch, client, Some(c.maxRetries), Some(c.numThreads),
                                       Sampling(c.temperature, c.topP), DefaultRetry);
    if results.Failure? {
      return Failure(PoolFailure(results.error));
    }
    var step := (i: nat) => PageAt(m, results.value, batch, c.includeHeadersFooters, i);
    var pages := Collect(step, |batch|);
    CollectPages(m, results.value, batch, c.includeHeadersFooters, step, |batch|);
    assert Settled(c, client, batch, results.value, calls);
    if pages.Failure? {
      var i :| 0 <= i < |batch| && PageAt(m, results.value, batch, c.includeHeadersFooters, i).Failure?;
      HasPageIffAssembled(c, m, client, images, mode, prompt, batch, results.value, calls, i);
      return Failure(LayoutFailure(pages.error));
    }
    EveryImageHasPage(c, m, client, images, mode, prompt, batch, results.value, calls, pages.value);
    PagesAreImagePages(c, m, client, images, mode, prompt, batch, results.value, calls, pages.value);
    r := Success(pages.value);
  }

  /** `parse_image(image, prompt_mode, prompt)`: the first page of
      `parse_images([image], ...)`, which is the page `parse_images` makes of
      that image in first position. */
  method ParseImage(c: ClientConfig, m: Markup, client: (InputItem, nat, Sampling) -> Reply,
                    image: PageImage, mode: string, prompt: Option<string>)
    returns (r: Result<PageResult, ClientError>)
    ensures c.numThreads < 1 ==> r == Failure(PoolFailure(NoWorkers))
    ensures r.Success? <==> c.numThreads >= 1 && HasPage(c, m, client, image, mode, prompt, 0)
    ensures r.Success? ==> r.value.pageNo == 0 && r.value.inputWidth == image.width && r.value.inputHeight == image.height
    ensures r.Success? ==> PageOf(c, m, client, image, mode, prompt, 0, r.value)
  {
    var pages := ParseImages(c, m, client, [image], mode, prompt);
    assert [image][0] == image;
    if pages.Failure? {
      return Failure(pages.error);
    }
    r := Success(pages.value[0]);
  }
}

/**
 * The decisions of `ContentProcessor.fetch_content(url)`: the domain
 * denylist, the PDF test, the page loop over at most ten PDF pages, and the
 * HTML fallback with its length threshold and truncation.
 *
 * The HTTP request, the PDF reader and the HTML tag stripping are foreign
 * code; the model receives what they produce as the value `response`.
 */
module Fetcher {
  import opened Common
  import opened Text
  import opened Documents

  /** Hosts that are never fetched. */
  const DeniedHosts: seq<string> := ["youtube.com", "reddit.com", "tiktok.com", "giphy.com", "tenor.com", "knowyourmeme.com"]

  /** At most this many PDF pages are read. */
  const MaxPdfPages := 10
  /** An HTML text must be longer than this to be kept. */
  const MinHtmlLength := 200
  /** An HTML text is cut to this many characters. */
  const MaxHtmlLength := 30000

  /** What `reader.pages[i].extract_text()` gives: a text (possibly empty) or an exception. */
  datatype PageText = Extracted(text: string) | ExtractFailed

  /** What `PdfReader(...)` makes of the body: an exception, or the pages. */
  datatype PdfReading = Unreadable | Reader(pages: seq<PageText>)

  /**
   * The parts of the HTTP response the decisions read: the `Content-Type`
   * header (empty when absent), the final URL after redirects, what the PDF
   * reader makes of the body, and the text of the body as HTML once scripts,
   * styles and navigation are removed.
   */
  datatype HttpResponse = HttpResponse(contentType: string, finalUrl: string, pdf: PdfReading, htmlText: string)

  /** The `(pages_data, doc_type)` pair returned; `None` for Python's `None`. */
  datatype Fetched = Fetched(pages: seq<Page>, docType: Option<DocType>)

  const Nothing := Fetched([], None)

  /** `any(x in url for x in [...])`. */
  predicate Denied(url: string) {
    exists k :: 0 <= k < |DeniedHosts| && Contains(url, DeniedHosts[k])
  }

  /** `'application/pdf' in content_type or final_url.endswith('.pdf')`, both lower-cased. */
  predicate IsPdf(response: HttpResponse) {
    Contains(Lower(response.contentType), "application/pdf") || EndsWith(Lower(response.finalUrl), ".pdf")
  }

  /** The state of the page loop: the pages collected and whether an extraction raised. */
  datatype PdfScan = PdfScan(collected: seq<Page>, raised: bool)

  /** The PDF pages are numbered from 1, in increasing order, within `1..n`, and none is empty. */
  predicate NumberedPages(pages: seq<Page>, n: nat) {
    && (forall k :: 0 <= k < |pages| ==> pages[k].marker.Number? && 1 <= pages[k].marker.n <= n && pages[k].text != [])
    && (forall k :: 0 <= k < |pages| - 1 ==> pages[k].marker.n < pages[k + 1].marker.n)
  }

  /**
   * The page loop over `pages`: a page whose text is non-empty is kept with
   * its 1-based number; the loop ends at the first page whose extraction raises.
   */
  function ScanPages(pages: seq<PageText>): (r: PdfScan)
    ensures NumberedPages(r.collected, |pages|)
    ensures |r.collected| <= |pages|
    decreases |pages|
  {
    if pages == [] then PdfScan([], false)
    else
      var s := ScanPages(pages[..|pages| - 1]);
      if s.raised then s
      else
        match pages[|pages| - 1]
        case ExtractFailed => PdfScan(s.collected, true)
        case Extracted(text) =>
          if text == [] then s else PdfScan(s.collected + [Page(Number(|pages|), text)], false)
  }

  /** One more page of the loop, while no extraction has raised. */
  lemma ScanPrefixStep(pages: seq<PageText>, i: nat)
    requires i < |pages| && !ScanPages(pages[..i]).raised
    ensures var s := ScanPages(pages[..i]);
      ScanPages(pages[..i + 1]) ==
        match pages[i]
        case ExtractFailed => PdfScan(s.collected, true)
        case Extracted(text) => if text == [] then s else PdfScan(s.collected + [Page(Number(i + 1), text)], false)
  {
    assert pages[..i + 1][..i] == pages[..i];
  }

  /** Once an extraction has raised, later pages are not looked at. */
  lemma {:induction false} ScanStaysRaised(pages: seq<PageText>, i: nat)
    requires i <= |pages| && ScanPages(pages[..i]).raised
    ensures ScanPages(pages) == ScanPages(pages[..i])
    decreases |pages| - i
  {
    if i < |pages| {
      assert pages[..i + 1][..i] == pages[..i];
      ScanStaysRaised(pages, i + 1);
    } else {
      assert pages[..i] == pages;
    }
  }

  /** Without a failing extraction, exactly the non-empty pages are collected, numbered by position. */
  lemma {:induction false} ScanKeepsNonEmptyPages(pages: seq<PageText>, i: nat)
    requires i < |pages| && pages[i].Extracted? && pages[i].text != []
    requires !ScanPages(pages).raised
    ensures Page(Number(i + 1), pages[i].text) in ScanPages(pages).collected
    decreases |pages|
  {
    var init := pages[..|pages| - 1];
    if i < |init| {
      assert init[i] == pages[i];
      ScanKeepsNonEmptyPages(init, i);
    }
  }

  /** The HTML branch: a text longer than 200 characters becomes one page "Web"
      cut to 30000 characters, appended to the pages collected so far. */
  function HtmlResult(kept: seq<Page>, htmlText: string): Fetched {
    if |htmlText| > MinHtmlLength then Fetched(kept + [Page(Web, Prefix(htmlText, MaxHtmlLength))], Some(WEB))
    else Nothing
  }

  /**
   * `fetch_content(url)` as written. When an extraction raises, the PDF
   * branch is abandoned but the pages it collected stay in `pages_data`, in
   * front of the Web page of the HTML branch.
   */
  function FetchAsWritten(url: string, response: Option<HttpResponse>): Fetched {
    if Denied(url) || response.None? then Nothing
    else
      var resp := response.value;
      if IsPdf(resp) && resp.pdf.Reader? && |resp.pdf.pages| > 0 then
        var scan := ScanPages(resp.pdf.pages[..Min(MaxPdfPages, |resp.pdf.pages|)]);
        if scan.raised then HtmlResult(scan.collected, resp.htmlText)
        else Fetched(scan.collected, Some(PDF))
      else HtmlResult([], resp.htmlText)
  }

  /** A readable first page followed by a failing one: the loop keeps the first and raises. */
  lemma ScanReadableThenFailing(text: string)
    requires text != []
    ensures ScanPages([Extracted(text), ExtractFailed]) == PdfScan([Page(Number(1), text)], true)
  {
    var pages := [Extracted(text), ExtractFailed];
    var first := [Extracted(text)];
    assert first[..0] == [];
    assert ScanPages(first) == PdfScan([] + [Page(Number(1), text)], false);
    assert [] + [Page(Number(1), text)] == [Page(Number(1), text)];
    assert pages[..1] == first;
  }

  /** A PDF whose second page fails to extract after a readable first page is
      reported as a web document of two pages, the first of them a PDF page. */
  lemma PartialPdfLeaksIntoWebResult(url: string, resp: HttpResponse, text: string)
    requires !Denied(url) && IsPdf(resp) && resp.pdf == Reader([Extracted(text), ExtractFailed])
    requires text != [] && |resp.htmlText| > MinHtmlLength
    ensures var r := FetchAsWritten(url, Some(resp));
      r.docType == Some(WEB) && |r.pages| == 2 && r.pages[0] == Page(Number(1), text) && r.pages[1].marker == Web
  {
    var pages := resp.pdf.pages;
    assert pages[..Min(MaxPdfPages, |pages|)] == pages;
    ScanReadableThenFailing(text);
  }

  /** `fetch_content(url)` as evidently intended: the partial PDF pages are dropped before the HTML branch. */
  function FetchContentResult(url: string, response: Option<HttpResponse>): Fetched {
    if Denied(url) || response.None? then Nothing
    else
      var resp := response.value;
      if IsPdf(resp) && resp.pdf.Reader? && |resp.pdf.pages| > 0 then
        var scan := ScanPages(resp.pdf.pages[..Min(MaxPdfPages, |resp.pdf.pages|)]);
        if scan.raised then HtmlResult([], resp.htmlText)
        else Fetched(scan.collected, Some(PDF))
      else HtmlResult([], resp.htmlText)
  }

  /**
   * The result contract: a denied URL or a failed request gives `([], None)`;
   * a PDF result has at most ten pages numbered increasingly within 1..10,
   * none empty; a WEB result is a single page "Web" of more than 200 and at
   * most 30000 characters; otherwise there are no pages.
   */
  lemma FetchContract(url: string, response: Option<HttpResponse>)
    ensures var r := FetchContentResult(url, response);
      && (Denied(url) || response.None? ==> r == Nothing)
      && (r.docType == Some(PDF) ==> |r.pages| <= MaxPdfPages && NumberedPages(r.pages, MaxPdfPages))
      && (r.docType == Some(WEB) ==>
            |r.pages| == 1 && r.pages[0].marker == Web && MinHtmlLength < |r.pages[0].text| <= MaxHtmlLength)
      && (r.docType == None ==> r.pages == [])
  {
    var r := FetchContentResult(url, response);
    if r.docType == Some(WEB) {
      assert r.pages == [] + [r.pages[0]];
    }
  }

  /** A PDF that cannot be parsed, or has no pages, is read as HTML. */
  lemma UnreadablePdfFallsBackToHtml(url: string, resp: HttpResponse)
    requires !Denied(url) && IsPdf(resp)
    requires resp.pdf.Unreadable? || resp.pdf.pages == []
    ensures FetchContentResult(url, Some(resp)) == HtmlResult([], resp.htmlText)
  {
  }

  /** A readable PDF keeps every non-empty page among its first ten, numbered from 1. */
  lemma PdfKeepsNonEmptyPages(url: string, resp: HttpResponse, i: nat)
    requires !Denied(url) && IsPdf(resp) && resp.pdf.Reader?
    requires forall k :: 0 <= k < |resp.pdf.pages| ==> resp.pdf.pages[k].Extracted?
    requires i < Min(MaxPdfPages, |resp.pdf.pages|) && resp.pdf.pages[i].text != []
    ensures var r := FetchContentResult(url, Some(resp));
      r.docType == Some(PDF) && Page(Number(i + 1), resp.pdf.pages[i].text) in r.pages
  {
    var first := resp.pdf.pages[..Min(MaxPdfPages, |resp.pdf.pages|)];
    NeverRaises(first);
    assert first[i] == resp.pdf.pages[i];
    ScanKeepsNonEmptyPages(first, i);
  }

  /** Without a failing extraction, the loop never raises. */
  lemma {:induction false} NeverRaises(pages: seq<PageText>)
    requires forall k :: 0 <= k < |pages| ==> pages[k].Extracted?
    ensures !ScanPages(pages).raised
    decreases |pages|
  {
    if pages != [] {
      var init := pages[..|pages| - 1];
      assert forall k :: 0 <= k < |init| ==> init[k] == pages[k];
      NeverRaises(init);
    }
  }

  /**
   * The as-written function differs from the intended one only by the leaked
   * PDF pages: outside a WEB result the two agree, and a WEB result of the
   * function as written is the intended single page "Web" behind the pages
   * the PDF loop collected before it raised.
   */
  lemma AsWrittenDiffersOnlyByLeak(url: string, response: Option<HttpResponse>)
    ensures var a := FetchAsWritten(url, response);
      var c := FetchContentResult(url, response);
      && a.docType == c.docType
      && (a.docType != Some(WEB) ==> a == c)
      && (a.docType == Some(WEB) ==>
            && |c.pages| == 1 && |a.pages| >= 1
            && a.pages[|a.pages| - 1] == c.pages[0]
            && NumberedPages(a.pages[..|a.pages| - 1], MaxPdfPages))
  {
    if !Denied(url) && response.Some? {
      var resp := response.value;
      if IsPdf(resp) && resp.pdf.Reader? && |resp.pdf.pages| > 0 {
        var read := resp.pdf.pages[..Min(MaxPdfPages, |resp.pdf.pages|)];
        var scan := ScanPages(read);
        if scan.raised && |resp.htmlText| > MinHtmlLength {
          var web := Page(Web, Prefix(resp.htmlText, MaxHtmlLength));
          var leaked := scan.collected + [web];
          assert |read| <= MaxPdfPages && NumberedPages(scan.collected, |read|);
          assert leaked[..|scan.collected|] == scan.collected;
          assert ([] + [web])[0] == web;
        }
      }
    }
  }

  /**
   * The body of `fetch_content`, with its page loop: the loop stops at the
   * first failing extraction, and the pages it collected stay in
   * `pages_data` when the HTML branch runs.
   */
  method FetchContent(url: string, response: Option<HttpResponse>) returns (pagesData: seq<Page>, docType: Option<DocType>)
    ensures Fetched(pagesData, docType) == FetchAsWritten(url, response)
  {
    if Denied(url) || response.None? {
      return [], None;
    }
    var resp := response.value;
    pagesData := [];
    if IsPdf(resp) && resp.pdf.Reader? && |resp.pdf.pages| > 0 {
      var pages := resp.pdf.pages;
      var n := Min(MaxPdfPages, |pages|);
      var raised := false;
      var i := 0;
      while i < n && !raised
        invariant 0 <= i <= n
        invariant ScanPages(pages[..i]) == PdfScan(pagesData, raised)
      {
        ScanPrefixStep(pages, i);
        match pages[i] {
          case ExtractFailed =>
            raised := true;
          case Extracted(txt) =>
            if txt != [] {
              pagesData := pagesData + [Page(Number(i + 1), txt)];
            }
        }
        i := i + 1;
      }
      assert pages[..n][..i] == pages[..i];
      if raised {
        ScanStaysRaised(pages[..n], i);
      } else {
        assert i == n;
        return pagesData, Some(PDF);
      }
    }
    if |resp.htmlText| > MinHtmlLength {
      pagesData := pagesData + [Page(Web, Prefix(resp.htmlText, MaxHtmlLength))];
      return pagesData, Some(WEB);
    }
    return [], None;
  }
}

/** The paged documents the fetcher produces and the extractor consumes. */
module Documents {
  import opened Text

  /** A PDF page number (1-based) or the single-page marker of a web page. */
  datatype PageLabel = Number(n: nat) | Web

  /** One `{"page": ..., "text": ...}` entry of `pages_data`. */
  datatype Page = Page(marker: PageLabel, text: string)

  /** The document type `fetch_content` reports next to the pages. */
  datatype DocType = PDF | WEB

  /** `str(page_num)` inside the page markers of the excerpt. */
  function LabelText(marker: PageLabel): (r: string)
    ensures r != []
  {
    match marker
    case Number(n) => Decimal(n)
    case Web => "Web"
  }
}

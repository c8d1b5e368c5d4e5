/** `_read_pdf_text`: the text of a PDF, page by page. */
module PdfText {
  import opened Wrappers
  import opened PyStr

  const PypdfMissing: string := "pypdf is not installed. Please add it to dependencies."
  const PageSeparator: string := "\n\n"

  /** What one page's `extract_text()` gave: `Some(text)` when it returned a
      string, `None` when it returned `None` or raised. */
  type Page = Option<string>

  /** The text a page contributes: `page.extract_text() or ""`, and `""` when
      the extraction raised. */
  function PageText(p: Page): string
  {
    if p.Some? then p.value else ""
  }

  function PageTexts(pages: seq<Page>): (ts: seq<string>)
    ensures |ts| == |pages|
    ensures forall i :: 0 <= i < |pages| ==> ts[i] == PageText(pages[i])
  {
    seq(|pages|, i requires 0 <= i < |pages| => PageText(pages[i]))
  }

  /** The text of a document whose pages extracted as given. */
  function DocumentText(pages: seq<Page>): string
  {
    Join(PageTexts(pages), PageSeparator)
  }

  /** `_read_pdf_text(path)`. `reader` is what `PdfReader(path)` gave: the
      pages, or the message of the exception it raised. Without pypdf the
      call raises before the file is opened. */
  method ReadPdfText(pypdfInstalled: bool, reader: Result<seq<Page>>) returns (r: Result<string>)
    ensures !pypdfInstalled ==> r == Err(PypdfMissing)
    ensures pypdfInstalled && reader.Err? ==> r == Err(reader.error)
    ensures pypdfInstalled && reader.Ok? ==> r == Ok(DocumentText(reader.value))
  {
    if !pypdfInstalled {
      return Err(PypdfMissing);
    }
    if reader.Err? {
      return Err(reader.error);
    }
    var pageList := reader.value;
    var pages: seq<string> := [];
    for i := 0 to |pageList|
      invariant pages == PageTexts(pageList[..i])
    {
      var page := pageList[i];
      if page.Some? {
        pages := pages + [page.value];
      } else {
        pages := pages + [""];
      }
    }
    assert pageList[..|pageList|] == pageList;
    return Ok(Join(pages, PageSeparator));
  }

  /** k >= 1 pages always give k - 1 separators, whether or not the pages
      extracted: the length is the page texts' plus two per separator. */
  lemma DocumentLength(pages: seq<Page>)
    requires pages != []
    ensures |DocumentText(pages)| == TotalLength(PageTexts(pages)) + 2 * (|pages| - 1)
  {
    JoinLength(PageTexts(pages), PageSeparator);
  }

  /** Page i's text sits in the document right after the earlier pages and
      their separators, and a separator follows it unless it is the last. */
  lemma PageInDocument(pages: seq<Page>, i: nat)
    requires i < |pages|
    ensures var ts := PageTexts(pages);
            var o := PartOffset(ts, PageSeparator, i);
            var d := DocumentText(pages);
            InfixAt(d, o, PageText(pages[i]))
            && (i + 1 < |pages| ==> InfixAt(d, o + |ts[i]|, "\n\n"))
  {
    JoinPartAt(PageTexts(pages), PageSeparator, i);
  }

  /** A document none of whose pages extracted is the bare separators. */
  lemma {:induction false} BlankDocument(pages: seq<Page>)
    requires pages != []
    requires forall i :: 0 <= i < |pages| ==> pages[i] == None
    ensures DocumentText(pages) == Repeat("\n\n", |pages| - 1)
    decreases |pages|
  {
    if |pages| > 1 {
      BlankDocument(pages[1..]);
      assert PageTexts(pages)[1..] == PageTexts(pages[1..]);
    }
  }

  function Repeat(s: string, k: nat): string
  {
    if k == 0 then [] else s + Repeat(s, k - 1)
  }
}

/**
 * The data loaders and the factory that picks one by file extension. Reading
 * a file and extracting the text of a PDF page are not modelled: what a file
 * holds is given as a `SourceFile`.
 */
module Loader {
  import opened Wrappers

  datatype DataLoader = MarkDownDataLoader | PDFDataLoader

  /** `get_supported_extensions()` of each loader. */
  function SupportedExtensions(l: DataLoader): seq<string> {
    match l
    case MarkDownDataLoader => [".txt", ".md"]
    case PDFDataLoader => [".pdf"]
  }

  predicate Supports(l: DataLoader, ext: string) {
    ext in SupportedExtensions(l)
  }

  /** `DataLoaderFactory.loaders`, searched in this order. */
  const Loaders: seq<DataLoader> := [MarkDownDataLoader, PDFDataLoader]

  datatype LoaderError = ValueError(message: string)

  /** The position of the first loader in `registry` that supports `ext`, or `|registry|` when none does. */
  function FirstSupporting(registry: seq<DataLoader>, ext: string): (k: nat)
    ensures k <= |registry|
    ensures forall j :: 0 <= j < k ==> !Supports(registry[j], ext)
    ensures k < |registry| ==> Supports(registry[k], ext)
  {
    if registry == [] then 0
    else if Supports(registry[0], ext) then 0
    else 1 + FirstSupporting(registry[1..], ext)
  }

  /**
   * What `get_loader(ext)` returns or raises: a registered loader supporting
   * `ext`, or, when none does, the error naming the extension.
   */
  function LoaderFor(ext: string): (r: Result<DataLoader, LoaderError>)
    ensures r.Ok? ==> r.value in Loaders && Supports(r.value, ext)
    ensures r.Err? <==> forall l :: l in Loaders ==> !Supports(l, ext)
    ensures r.Err? ==> r.error.message == "No loader found for extension: " + ext
  {
    var k := FirstSupporting(Loaders, ext);
    if k < |Loaders| then Ok(Loaders[k])
    else Err(ValueError("No loader found for extension: " + ext))
  }

  /** `DataLoaderFactory.get_loader`: the first registered loader that supports `ext`. */
  method GetLoader(ext: string) returns (r: Result<DataLoader, LoaderError>)
    ensures r == LoaderFor(ext)
  {
    var i := 0;
    while i < |Loaders|
      invariant i <= |Loaders|
      invariant forall j :: 0 <= j < i ==> !Supports(Loaders[j], ext)
    {
      var loader := Loaders[i];
      if ext in SupportedExtensions(loader) {
        return Ok(loader);
      }
      i := i + 1;
    }
    return Err(ValueError("No loader found for extension: " + ext));
  }

  /** The factory dispatch: ".txt" and ".md" to the markdown loader, ".pdf" to the PDF loader, anything else is an error naming the extension. */
  lemma LoaderDispatch(ext: string)
    ensures ext == ".txt" || ext == ".md" <==> LoaderFor(ext) == Ok(MarkDownDataLoader)
    ensures ext == ".pdf" <==> LoaderFor(ext) == Ok(PDFDataLoader)
    ensures LoaderFor(ext).Err? <==> ext !in [".txt", ".md", ".pdf"]
    ensures LoaderFor(ext).Err? ==> LoaderFor(ext).error.message == "No loader found for extension: " + ext
  {
    var k := FirstSupporting(Loaders, ext);
    if ext == ".txt" || ext == ".md" {
      assert Supports(Loaders[0], ext);
      assert k == 0;
    } else if ext == ".pdf" {
      assert !Supports(Loaders[0], ext) && Supports(Loaders[1], ext);
      assert k == 1;
    } else {
      assert !Supports(Loaders[0], ext) && !Supports(Loaders[1], ext);
      assert k == 2;
    }
  }

  /** Extensions are compared exactly: case and the leading dot matter. */
  lemma LoaderExtensionsExact()
    ensures LoaderFor(".MD").Err? && LoaderFor("md").Err? && LoaderFor(".PDF").Err? && LoaderFor("").Err?
  {
    LoaderDispatch(".MD");
    LoaderDispatch("md");
    LoaderDispatch(".PDF");
    LoaderDispatch("");
  }

  /** What a file holds, as the loaders see it: its whole text, and the text extracted from each PDF page. */
  datatype SourceFile = SourceFile(text: string, pageTexts: seq<string>)

  function TotalLength(pages: seq<string>): nat {
    if pages == [] then 0 else TotalLength(pages[..|pages| - 1]) + |pages[|pages| - 1]|
  }

  /**
   * The text of a PDF: every page's text followed by a line break, in page
   * order. It is as long as the pages together plus one line break per page.
   */
  function PdfText(pages: seq<string>): (text: string)
    ensures |text| == TotalLength(pages) + |pages|
    ensures pages != [] ==> text[|text| - 1] == '\n'
  {
    if pages == [] then "" else PdfText(pages[..|pages| - 1]) + pages[|pages| - 1] + "\n"
  }

  /** `PDFDataLoader.load_data`: concatenates the pages' texts, each followed by "\n". */
  method LoadPdfText(pages: seq<string>) returns (text: string)
    ensures text == PdfText(pages)
  {
    text := "";
    for i := 0 to |pages|
      invariant text == PdfText(pages[..i])
    {
      assert pages[..i + 1][..i] == pages[..i];
      text := text + pages[i] + "\n";
    }
    assert pages[..|pages|] == pages;
  }

  /** Loading the pages of two documents one after the other is loading each and concatenating. */
  lemma {:induction false} PdfTextAppend(a: seq<string>, b: seq<string>)
    ensures PdfText(a + b) == PdfText(a) + PdfText(b)
    decreases |b|
  {
    if b == [] {
      assert a + b == a;
    } else {
      var b', last := b[..|b| - 1], b[|b| - 1];
      assert (a + b)[..|a + b| - 1] == a + b';
      assert (a + b)[|a + b| - 1] == last;
      PdfTextAppend(a, b');
      calc {
        PdfText(a + b);
        PdfText(a + b') + last + "\n";
        PdfText(a) + PdfText(b') + last + "\n";
        PdfText(a) + (PdfText(b') + last + "\n");
        PdfText(a) + PdfText(b);
      }
    }
  }

  /** A PDF with no pages loads as "", one page as its text and a line break. */
  lemma PdfTextSmall(p: string)
    ensures PdfText([]) == ""
    ensures PdfText([p]) == p + "\n"
  {
    assert [p][..0] == [];
  }

  /** The first page's text comes first. */
  lemma PdfTextCons(p: string, rest: seq<string>)
    ensures PdfText([p] + rest) == p + "\n" + PdfText(rest)
  {
    PdfTextAppend([p], rest);
    PdfTextSmall(p);
  }

  /** What `load_data` returns for a file. */
  function LoadedText(l: DataLoader, f: SourceFile): string {
    match l
    case MarkDownDataLoader => f.text
    case PDFDataLoader => PdfText(f.pageTexts)
  }

  /** `load_data(file_path)` of the chosen loader. */
  method LoadData(l: DataLoader, f: SourceFile) returns (data: string)
    ensures data == LoadedText(l, f)
  {
    match l
    case MarkDownDataLoader =>
      data := f.text;
    case PDFDataLoader =>
      data := LoadPdfText(f.pageTexts);
  }
}

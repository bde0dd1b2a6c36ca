/**
 * The PDF converter (src/PdfConverter.php). It keeps the output directory
 * with its trailing slashes trimmed, and turns the pages of a PDF into a
 * list of output entries: the base64 text of each page's PNG when the
 * output mode is exactly "base64", otherwise the names of the PNG files it
 * writes, `<filename>.png` for a one-page document and
 * `<filename>-<i>.png` for each page i of a longer one.
 *
 * The imaging library is not modelled: what it reads from the PDF is an
 * input `Document`, and each of its failures is a reason text.
 */
module Converter {
  import opened Wrappers
  import opened Php
  import Base64

  /** One page as the imaging library delivers it: the PNG bytes, and the
      message of the library's exception if rendering or writing this page
      fails. */
  datatype Page = Page(blob: seq<Base64.byte>, fault: Option<string>)

  /** What reading the PDF gives: a failure with its message, or the pages
      in document order. */
  datatype Document = Unreadable(reason: string) | Readable(pages: seq<Page>)

  const Base64Mode := "base64"
  const MissingImagickMessage := "Imagick extension is not installed"
  const ConversionFailedPrefix := "PDF conversion failed: "

  /** The name of the file for page i: `<filename>.png` when the document
      has one page, `<filename>-<i>.png` when it has more. */
  function PageFileName(filename: string, i: nat, pageCount: nat): (name: string)
    ensures |name| >= |filename| + 4 && name[..|filename|] == filename
    ensures name[|name| - 4..] == ".png"
    ensures '/' !in filename ==> '/' !in name
  {
    if pageCount > 1 then
      var digits := NatToString(i);
      assert '/' !in digits by {
        assert AllDigits(digits);
      }
      filename + "-" + digits + ".png"
    else filename + ".png"
  }

  /** The path page i is written to, inside the output directory. */
  function PagePath(dir: string, filename: string, i: nat, pageCount: nat): (path: string)
    ensures |path| > |dir| && path[..|dir| + 1] == dir + "/"
    ensures '/' !in filename ==> Basename(path) == PageFileName(filename, i, pageCount)
  {
    var name := PageFileName(filename, i, pageCount);
    if '/' !in filename then
      BasenameOfJoin(dir, name);
      dir + "/" + name
    else dir + "/" + name
  }

  /** The entry reported for page i. */
  function Entry(dir: string, filename: string, output: string, i: nat, pageCount: nat, page: Page): (e: string)
    ensures output == Base64Mode ==> Base64.Decode(e) == Some(page.blob)
    ensures output != Base64Mode ==> '/' !in e
    ensures output != Base64Mode && '/' !in filename ==> e == PageFileName(filename, i, pageCount)
  {
    if output == Base64Mode then
      Base64.DecodeEncode(page.blob);
      Base64.Encode(page.blob)
    else Basename(PagePath(dir, filename, i, pageCount))
  }

  /** The first k values of f, in order. */
  function Build(f: nat -> string, k: nat): (r: seq<string>)
    ensures |r| == k
    decreases k
  {
    if k == 0 then [] else Build(f, k - 1) + [f(k - 1)]
  }

  /** The entry of page j of `pages`; there is none past the last page. */
  function EntryOf(dir: string, filename: string, output: string, pages: seq<Page>): nat -> string
  {
    (j: nat) => if j < |pages| then Entry(dir, filename, output, j, |pages|, pages[j]) else ""
  }

  /** The entries of the first k pages, in page order. */
  function Entries(dir: string, filename: string, output: string, pages: seq<Page>, k: nat): (r: seq<string>)
    requires k <= |pages|
    ensures |r| == k
  {
    Build(EntryOf(dir, filename, output, pages), k)
  }

  /** The paths of the files written for the first k pages, in page order. */
  function Written(dir: string, filename: string, pageCount: nat, k: nat): (r: seq<string>)
    ensures |r| == k
  {
    Build((j: nat) => PagePath(dir, filename, j, pageCount), k)
  }

  /** The index of the first page whose processing fails, or the page count
      when none does. */
  function FirstFault(pages: seq<Page>): (k: nat)
    ensures k <= |pages|
    ensures forall j :: 0 <= j < k ==> pages[j].fault.None?
    ensures k < |pages| ==> pages[k].fault.Some?
    decreases |pages|
  {
    if pages == [] || pages[0].fault.Some? then 0 else 1 + FirstFault(pages[1..])
  }

  /** What `convertToImages` returns or throws. */
  function ConversionOutcome(dir: string, filename: string, output: string, imagickLoaded: bool, document: Document): (r: Result<seq<string>, Exception>)
    ensures r.Ok? ==> imagickLoaded && document.Readable? && |r.value| == |document.pages|
    ensures r.Err? ==> r.error.kind == RuntimeException
  {
    if !imagickLoaded then Err(Runtime(MissingImagickMessage))
    else match document
      case Unreadable(reason) => Err(Runtime(ConversionFailedPrefix + reason))
      case Readable(pages) =>
        var k := FirstFault(pages);
        if k < |pages| then Err(Runtime(ConversionFailedPrefix + pages[k].fault.value))
        else Ok(Entries(dir, filename, output, pages, |pages|))
  }

  /** The files `convertToImages` writes before it returns or throws. */
  function FilesWritten(dir: string, filename: string, output: string, imagickLoaded: bool, document: Document): (w: seq<string>)
    ensures w != [] ==> imagickLoaded && document.Readable? && output != Base64Mode
    ensures document.Readable? ==> |w| <= |document.pages|
    ensures document.Readable? && ConversionOutcome(dir, filename, output, imagickLoaded, document).Ok? && output != Base64Mode
      ==> |w| == |document.pages|
  {
    if !imagickLoaded || document.Unreadable? || output == Base64Mode then []
    else Written(dir, filename, |document.pages|, FirstFault(document.pages))
  }

  class PdfConverter {
    /** The output directory, without trailing slashes. */
    const uploadDir: string

    /** Creating the directory when it is missing is not modelled. */
    constructor (uploadDir: string)
      ensures this.uploadDir == RTrimSlashes(uploadDir)
      ensures this.uploadDir == [] || this.uploadDir[|this.uploadDir| - 1] != '/'
    {
      this.uploadDir := RTrimSlashes(uploadDir);
    }

    /** `convertToImages($pdfPath, $filename, $output)`: the entries for the
        pages of `document`, and the paths of the files written on the way.
        The PDF path only selects what the imaging library reads, so it
        plays no part here beyond naming the input. */
    method ConvertToImages(pdfPath: string, filename: string, output: string, imagickLoaded: bool, document: Document)
      returns (result: Result<seq<string>, Exception>, written: seq<string>)
      ensures result == ConversionOutcome(uploadDir, filename, output, imagickLoaded, document)
      ensures written == FilesWritten(uploadDir, filename, output, imagickLoaded, document)
    {
      written := [];
      if !imagickLoaded {
        return Err(Runtime(MissingImagickMessage)), written;
      }
      if document.Unreadable? {
        return Err(Runtime(ConversionFailedPrefix + document.reason)), written;
      }
      result, written := ConvertPages(filename, output, document.pages);
    }

    /** The `foreach` over the pages of a readable PDF, with the extension
        loaded. */
    method ConvertPages(filename: string, output: string, pages: seq<Page>)
      returns (result: Result<seq<string>, Exception>, written: seq<string>)
      ensures result == ConversionOutcome(uploadDir, filename, output, true, Readable(pages))
      ensures written == FilesWritten(uploadDir, filename, output, true, Readable(pages))
    {
      written := [];
      var count := |pages|;
      var outputImages: seq<string> := [];
      var i := 0;
      while i < count
        invariant 0 <= i <= count
        invariant i <= FirstFault(pages)
        invariant outputImages == Entries(uploadDir, filename, output, pages, i)
        invariant written == if output == Base64Mode then [] else Written(uploadDir, filename, count, i)
      {
        var page := pages[i];
        // `getImageBlob` or `writeImage` throwing for this page: the
        // ImagickException is rethrown before anything is recorded for it.
        if page.fault.Some? {
          assert FirstFault(pages) == i;
          return Err(Runtime(ConversionFailedPrefix + page.fault.value)), written;
        }
        PastFaultFree(pages, i);
        if output == Base64Mode {
          Base64PageStep(uploadDir, filename, pages, i);
          outputImages := outputImages + [Base64.Encode(page.blob)];
        } else {
          var outputPath := uploadDir + "/" + (filename + ".png");
          if count > 1 {
            outputPath := uploadDir + "/" + (filename + "-" + NatToString(i) + ".png");
          }
          FilePageStep(uploadDir, filename, output, pages, i, outputPath);
          written := written + [outputPath];
          outputImages := outputImages + [Basename(outputPath)];
        }
        i := i + 1;
      }
      assert FirstFault(pages) == count;
      result := Ok(outputImages);
    }
  }

  // -----------------------------------------------------------------------
  // Properties of the conversion
  // -----------------------------------------------------------------------

  /** Value j of the first k values of f is f(j). */
  lemma {:induction false} BuildAt(f: nat -> string, k: nat, j: nat)
    requires j < k
    ensures Build(f, k)[j] == f(j)
    decreases k
  {
    if j < k - 1 {
      BuildAt(f, k - 1, j);
    }
  }

  /** One more page adds its entry at the end. */
  lemma EntriesSnoc(dir: string, filename: string, output: string, pages: seq<Page>, k: nat)
    requires k < |pages|
    ensures Entries(dir, filename, output, pages, k + 1)
      == Entries(dir, filename, output, pages, k) + [Entry(dir, filename, output, k, |pages|, pages[k])]
  {
    var f := EntryOf(dir, filename, output, pages);
    assert Build(f, k + 1) == Build(f, k) + [f(k)];
  }

  /** One more page adds its path at the end. */
  lemma WrittenSnoc(dir: string, filename: string, pageCount: nat, k: nat)
    ensures Written(dir, filename, pageCount, k + 1)
      == Written(dir, filename, pageCount, k) + [PagePath(dir, filename, k, pageCount)]
  {
    var f := (j: nat) => PagePath(dir, filename, j, pageCount);
    assert Build(f, k + 1) == Build(f, k) + [f(k)];
  }

  /** A page that does not fail, at or before the first failing one, is
      before it. */
  lemma PastFaultFree(pages: seq<Page>, i: nat)
    requires i < |pages| && i <= FirstFault(pages) && pages[i].fault.None?
    ensures i + 1 <= FirstFault(pages)
  {
  }

  /** One more page in base64 mode appends the encoding of its bytes. */
  lemma Base64PageStep(dir: string, filename: string, pages: seq<Page>, k: nat)
    requires k < |pages|
    ensures Entries(dir, filename, Base64Mode, pages, k + 1)
      == Entries(dir, filename, Base64Mode, pages, k) + [Base64.Encode(pages[k].blob)]
  {
    EntriesSnoc(dir, filename, Base64Mode, pages, k);
  }

  /** One more page in file mode appends the path the loop builds to the
      written files, and its basename to the entries. */
  lemma FilePageStep(dir: string, filename: string, output: string, pages: seq<Page>, k: nat, outputPath: string)
    requires k < |pages| && output != Base64Mode
    requires outputPath == if |pages| > 1 then dir + "/" + (filename + "-" + NatToString(k) + ".png")
                           else dir + "/" + (filename + ".png")
    ensures Entries(dir, filename, output, pages, k + 1)
      == Entries(dir, filename, output, pages, k) + [Basename(outputPath)]
    ensures Written(dir, filename, |pages|, k + 1) == Written(dir, filename, |pages|, k) + [outputPath]
  {
    assert outputPath == PagePath(dir, filename, k, |pages|);
    EntriesSnoc(dir, filename, output, pages, k);
    WrittenSnoc(dir, filename, |pages|, k);
  }

  /** Entry j of the first k pages is the entry of page j. */
  lemma EntriesAt(dir: string, filename: string, output: string, pages: seq<Page>, k: nat, j: nat)
    requires j < k <= |pages|
    ensures Entries(dir, filename, output, pages, k)[j] == Entry(dir, filename, output, j, |pages|, pages[j])
  {
    BuildAt(EntryOf(dir, filename, output, pages), k, j);
  }

  /** Path j of the first k written files is the path of page j. */
  lemma WrittenAt(dir: string, filename: string, pageCount: nat, k: nat, j: nat)
    requires j < k
    ensures Written(dir, filename, pageCount, k)[j] == PagePath(dir, filename, j, pageCount)
  {
    BuildAt((j: nat) => PagePath(dir, filename, j, pageCount), k, j);
  }

  /** The conversion succeeds exactly when the extension is loaded, the PDF
      reads, and no page fails; then there is one entry per page. */
  lemma OneEntryPerPage(dir: string, filename: string, output: string, imagickLoaded: bool, document: Document)
    ensures ConversionOutcome(dir, filename, output, imagickLoaded, document).Ok?
        <==> imagickLoaded && document.Readable? && forall j :: 0 <= j < |document.pages| ==> document.pages[j].fault.None?
    ensures ConversionOutcome(dir, filename, output, imagickLoaded, document).Ok? ==>
        |ConversionOutcome(dir, filename, output, imagickLoaded, document).value| == |document.pages|
  {
  }

  /** Every failure is a RuntimeException: the missing extension with its own
      message, an imaging failure with "PDF conversion failed: " before the
      library's message, and that failing page is the first page with a
      fault. Nothing is written when the extension is missing
      or the PDF does not read. */
  lemma FailuresAreRuntimeExceptions(dir: string, filename: string, output: string, imagickLoaded: bool, document: Document)
    ensures !imagickLoaded ==>
        ConversionOutcome(dir, filename, output, imagickLoaded, document) == Err(Runtime(MissingImagickMessage))
        && FilesWritten(dir, filename, output, imagickLoaded, document) == []
    ensures imagickLoaded && document.Unreadable? ==>
        ConversionOutcome(dir, filename, output, imagickLoaded, document) == Err(Runtime(ConversionFailedPrefix + document.reason))
        && FilesWritten(dir, filename, output, imagickLoaded, document) == []
    ensures imagickLoaded && document.Readable? && ConversionOutcome(dir, filename, output, imagickLoaded, document).Err? ==>
        exists j :: 0 <= j < |document.pages| && document.pages[j].fault.Some?
          && ConversionOutcome(dir, filename, output, imagickLoaded, document)
             == Err(Runtime(ConversionFailedPrefix + document.pages[j].fault.value))
          && forall k :: 0 <= k < j ==> document.pages[k].fault.None?
  {
    if imagickLoaded && document.Readable? && ConversionOutcome(dir, filename, output, imagickLoaded, document).Err? {
      var k := FirstFault(document.pages);
      assert document.pages[k].fault.Some?;
    }
  }

  /** In base64 mode entry i is the RFC 4648 encoding of page i's PNG bytes,
      it decodes back to them, and no file is written. */
  lemma Base64ModeEntries(dir: string, filename: string, pages: seq<Page>, i: nat)
    requires ConversionOutcome(dir, filename, Base64Mode, true, Readable(pages)).Ok?
    requires i < |pages|
    ensures ConversionOutcome(dir, filename, Base64Mode, true, Readable(pages)).value[i] == Base64.Encode(pages[i].blob)
    ensures Base64.Decode(ConversionOutcome(dir, filename, Base64Mode, true, Readable(pages)).value[i]) == Some(pages[i].blob)
    ensures FilesWritten(dir, filename, Base64Mode, true, Readable(pages)) == []
  {
    EntriesAt(dir, filename, Base64Mode, pages, |pages|, i);
    Base64.DecodeEncode(pages[i].blob);
  }

  /** Any output value other than exactly "base64" (the default "blob"
      included) writes one file per page, in page order, under the
      trimmed directory. */
  lemma FileModeWritesEveryPage(dir: string, filename: string, output: string, pages: seq<Page>, i: nat)
    requires output != Base64Mode
    requires ConversionOutcome(dir, filename, output, true, Readable(pages)).Ok?
    requires i < |pages|
    ensures |FilesWritten(dir, filename, output, true, Readable(pages))| == |pages|
    ensures FilesWritten(dir, filename, output, true, Readable(pages))[i] == PagePath(dir, filename, i, |pages|)
  {
    assert FirstFault(pages) == |pages|;
    WrittenAt(dir, filename, |pages|, |pages|, i);
  }

  /** In file mode every entry is the basename of the file written for that
      page, so it holds no '/', whatever the filename argument holds. */
  lemma FileModeEntriesAreBasenames(dir: string, filename: string, output: string, pages: seq<Page>, i: nat)
    requires output != Base64Mode
    requires ConversionOutcome(dir, filename, output, true, Readable(pages)).Ok?
    requires i < |pages|
    ensures ConversionOutcome(dir, filename, output, true, Readable(pages)).value[i]
            == Basename(FilesWritten(dir, filename, output, true, Readable(pages))[i])
    ensures '/' !in ConversionOutcome(dir, filename, output, true, Readable(pages)).value[i]
  {
    EntriesAt(dir, filename, output, pages, |pages|, i);
    FileModeWritesEveryPage(dir, filename, output, pages, i);
  }

  /** In file mode the entry of a page is the name of its file, provided
      the filename argument is a single path component. */
  lemma FileEntryIsName(dir: string, filename: string, output: string, i: nat, pageCount: nat, page: Page)
    requires output != Base64Mode && '/' !in filename
    ensures Entry(dir, filename, output, i, pageCount, page) == PageFileName(filename, i, pageCount)
  {
    if pageCount > 1 {
      PageNameHasNoSlash(filename, i);
    } else {
      assert '/' !in filename + ".png";
    }
    BasenameOfJoin(dir, PageFileName(filename, i, pageCount));
  }

  /** A one-page document converted in file mode gives `[<filename>.png]`. */
  lemma SinglePageName(dir: string, filename: string, output: string, page: Page)
    requires output != Base64Mode && page.fault.None? && '/' !in filename
    ensures ConversionOutcome(dir, filename, output, true, Readable([page])) == Ok([filename + ".png"])
  {
    assert FirstFault([page]) == 1;
    var entries := Entries(dir, filename, output, [page], 1);
    assert ConversionOutcome(dir, filename, output, true, Readable([page])) == Ok(entries);
    FileEntryIsName(dir, filename, output, 0, 1, page);
    EntriesAt(dir, filename, output, [page], 1, 0);
    assert entries == [entries[0]];
  }

  /** `<filename>-<i>.png` is a single path component when the filename is. */
  lemma PageNameHasNoSlash(filename: string, i: nat)
    requires '/' !in filename
    ensures '/' !in filename + "-" + NatToString(i) + ".png"
  {
    var digits := NatToString(i);
    assert AllDigits(digits);
    assert '/' !in digits;
  }

  /** With n > 1 pages in file mode, entry i is `<filename>-<i>.png`. */
  lemma MultiPageNames(dir: string, filename: string, output: string, pages: seq<Page>, i: nat)
    requires output != Base64Mode && |pages| > 1 && '/' !in filename
    requires ConversionOutcome(dir, filename, output, true, Readable(pages)).Ok?
    requires i < |pages|
    ensures ConversionOutcome(dir, filename, output, true, Readable(pages)).value[i]
            == filename + "-" + NatToString(i) + ".png"
  {
    var entries := Entries(dir, filename, output, pages, |pages|);
    assert ConversionOutcome(dir, filename, output, true, Readable(pages)) == Ok(entries);
    EntriesAt(dir, filename, output, pages, |pages|, i);
    FileEntryIsName(dir, filename, output, i, |pages|, pages[i]);
    assert entries[i] == PageFileName(filename, i, |pages|);
  }

  /** `p + a + q == p + b + q` only when `a == b`. */
  lemma CancelAround(p: string, a: string, b: string, q: string)
    requires p + a + q == p + b + q
    ensures a == b
  {
    var s, t := p + a + q, p + b + q;
    assert |a| == |b|;
    assert a == s[|p|..|p| + |a|];
    assert b == t[|p|..|p| + |b|];
  }

  /** No two pages of one document are written to the same path. */
  lemma PagePathsDistinct(dir: string, filename: string, pageCount: nat, i: nat, j: nat)
    requires i < pageCount && j < pageCount && i != j
    ensures PagePath(dir, filename, i, pageCount) != PagePath(dir, filename, j, pageCount)
  {
    if PagePath(dir, filename, i, pageCount) == PagePath(dir, filename, j, pageCount) {
      var p := filename + "-";
      CancelAround(dir + "/", PageFileName(filename, i, pageCount), PageFileName(filename, j, pageCount), "");
      assert PageFileName(filename, i, pageCount) == p + NatToString(i) + ".png";
      assert PageFileName(filename, j, pageCount) == p + NatToString(j) + ".png";
      CancelAround(p, NatToString(i), NatToString(j), ".png");
      NatToStringInjective(i, j);
    }
  }
}

/** The document handle of the viewer (`PDFDocument`): an immutable record of
    the file a document came from, the opened document, and the side of the
    split view it is shown on.

    The opened PDF itself is abstracted to what the viewer reads from it: one
    crop-box text per page (so the page count is the number of entries), the
    optional document information dictionary as an ordered list of entries,
    and whether it has been released. */
module Document {
  import opened Wrappers

  /** The two halves of the split view. */
  datatype Side = Left | Right

  /** A file identity; `toString` of a `java.io.File` is its path. */
  datatype File = File(path: string)

  /** One entry of the information dictionary. The value is absent when the
      dictionary holds something that is not a string under that key. */
  datatype MetaEntry = MetaEntry(key: string, value: Option<string>)

  /** The opened PDF, reduced to what the viewer observes of it. */
  datatype PdfDoc = PdfDoc(cropBoxes: seq<string>, info: Option<seq<MetaEntry>>, closed: bool)
  {
    /** `getNumberOfPages()`, which is also `getPages().getCount()`. */
    function PageCount(): nat {
      |cropBoxes|
    }

    /** `getPage(page).getCropBox()` rendered as text. */
    function CropBox(page: nat): string
      requires page < PageCount()
    {
      cropBoxes[page]
    }
  }

  /** `PDFDocument`: every field is final, so a handle never changes after
      construction; closing acts on the document it holds. */
  datatype Handle = Handle(file: File, document: PdfDoc, side: Side)

  /** The constructor: stores exactly what it is given. */
  function NewHandle(file: File, document: PdfDoc, side: Side): (h: Handle)
    ensures GetFile(h) == file && GetDocument(h) == document && GetSide(h) == side
  {
    Handle(file, document, side)
  }

  function GetFile(h: Handle): File { h.file }

  function GetDocument(h: Handle): PdfDoc { h.document }

  function GetSide(h: Handle): Side { h.side }

  /** A handle is fully determined by what its three accessors return, so
      rebuilding it from them gives back the same handle. */
  lemma HandleRoundTrip(h: Handle)
    ensures NewHandle(GetFile(h), GetDocument(h), GetSide(h)) == h
  {
  }

  /** `close` only delegates to the document's own `close`. The outcome of
      releasing the underlying resource is a parameter: `None` when it
      succeeds, `Some(e)` when it throws `e`, which is propagated as is. */
  function Close(h: Handle, releaseFailure: Option<string>): (r: Result<Handle, string>)
    ensures r.Ok? <==> releaseFailure.None?
    ensures r.Err? ==> r.error == releaseFailure.value
    ensures r.Ok? ==> r.value.file == h.file && r.value.side == h.side
    ensures r.Ok? ==> r.value.document.closed
    ensures r.Ok? ==> r.value.document.cropBoxes == h.document.cropBoxes
                      && r.value.document.info == h.document.info
  {
    match releaseFailure
    case None => Ok(h.(document := h.document.(closed := true)))
    case Some(e) => Err(e)
  }
}

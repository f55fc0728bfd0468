/**
 * `PDFUploadForm.clean_pdf_file` (translator/forms.py): the upload form accepts a file only
 * when its name ends in `.pdf` (in any letter case) and it is at most 50 MiB. A missing file,
 * or one whose name is empty (a Django file object is false when its name is), passes through
 * unchecked.
 */
module UploadForm {
  import opened Wrappers
  import opened Text

  /** The uploaded file as the form sees it: its name and its size in bytes. */
  datatype UploadedFile = UploadedFile(name: string, size: nat)

  /** The two validation errors the form raises. */
  datatype FormError = NotPdf | TooLarge

  /** `50 * 1024 * 1024`. */
  const MaxUploadBytes: nat := 52428800

  const PdfSuffix: string := ".pdf"

  /** Whether Python would treat the file as present. */
  predicate Present(file: Option<UploadedFile>) {
    file.Some? && file.value.name != ""
  }

  predicate HasPdfName(f: UploadedFile) {
    EndsWith(Lower(f.name), PdfSuffix)
  }

  /** The extension is checked first, then the size; a file passing both is returned unchanged. */
  function CleanPdfFile(file: Option<UploadedFile>): (r: Result<Option<UploadedFile>, FormError>)
    ensures r.Success? ==> r.value == file
    ensures r.Success? <==> !Present(file) || (HasPdfName(file.value) && file.value.size <= MaxUploadBytes)
    ensures r == Failure(NotPdf) <==> Present(file) && !HasPdfName(file.value)
    ensures r == Failure(TooLarge) <==> Present(file) && HasPdfName(file.value) && file.value.size > MaxUploadBytes
  {
    if !Present(file) then Success(file)
    else if !EndsWith(Lower(file.value.name), PdfSuffix) then Failure(NotPdf)
    else if file.value.size > 50 * 1024 * 1024 then Failure(TooLarge)
    else Success(file)
  }

  // ---------------------------------------------------------------------------
  // Lemmas

  /** The limit is inclusive: exactly 50 MiB is accepted, one byte more is not. */
  lemma SizeLimitInclusive(name: string)
    requires EndsWith(Lower(name), PdfSuffix)
    ensures CleanPdfFile(Some(UploadedFile(name, MaxUploadBytes))).Success?
    ensures CleanPdfFile(Some(UploadedFile(name, MaxUploadBytes + 1))) == Failure(TooLarge)
  {
  }

  /** A file that is both too large and not a PDF is reported as not a PDF. */
  lemma ExtensionCheckedFirst(f: UploadedFile)
    requires f.name != "" && !HasPdfName(f)
    ensures CleanPdfFile(Some(f)) == Failure(NotPdf)
  {
  }

  /** Renaming the file with different letter case does not change the verdict. */
  lemma {:induction false} CaseDoesNotMatter(name: string, other: string, size: nat)
    requires Lower(name) == Lower(other)
    ensures var r1 := CleanPdfFile(Some(UploadedFile(name, size)));
            var r2 := CleanPdfFile(Some(UploadedFile(other, size)));
            r1.Success? == r2.Success? && (r1.Failure? ==> r1.error == r2.error)
  {
    if name == "" {
      assert |Lower(other)| == 0;
    } else {
      assert |Lower(other)| != 0;
    }
  }

  /** `report.PDF`, `REPORT.pdf` and `report.pdf` are all PDF names. */
  lemma UpperCaseExtensionAccepted(stem: string)
    ensures HasPdfName(UploadedFile(stem + ".PDF", 0))
  {
    LowerConcat(stem, ".PDF");
    assert Lower(".PDF") == ".pdf";
  }
}

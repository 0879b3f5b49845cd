// How the three file validators of the front end relate: the service's
// private check (lib/ocr-service.ts), the upload hook's check
// (hooks/use-file-upload.ts) and the drop zone's check
// (components/file-upload.tsx).

module Validators {
  import opened Types
  import OcrService
  import UploadHook
  import UploadComponent

  /** With its default options the hook accepts exactly the files the
      service accepts whose names also match the file-name pattern. */
  lemma HookDefaultsRefineService(f: File)
    ensures UploadHook.Validate(UploadHook.DefaultAcceptedTypes, UploadHook.DefaultMaxSize, f) == UploadHook.Accepted
            <==> OcrService.ValidateFile(f) && UploadHook.MatchesNamePattern(f.name)
  {
  }

  /** Every file the service accepts passes the drop zone's type check, and
      its size check too whenever the drop zone allows at least 50 MB. */
  lemma ServiceAcceptedPassesComponent(f: File, maxSizeMb: nat)
    requires OcrService.ValidateFile(f)
    ensures UploadComponent.Validate(maxSizeMb, f) != UploadComponent.NotPdf
    ensures maxSizeMb >= 50 ==> UploadComponent.Validate(maxSizeMb, f) == UploadComponent.Accepted
  {
    assert f.mime[12..15] == "pdf";
    assert UploadComponent.OccursAt(f.mime, "pdf", 12);
    UploadComponent.ContainsIffOccurs(f.mime, "pdf");
  }

  /** The drop zone's substring test lets through MIME types that the hook
      and the service refuse. */
  lemma ComponentAdmitsOtherPdfTypes()
    ensures UploadComponent.Validate(UploadComponent.DefaultMaxSizeMb, File("a.pdf", "application/x-pdf", 1)) == UploadComponent.Accepted
    ensures !OcrService.ValidateFile(File("a.pdf", "application/x-pdf", 1))
    ensures UploadHook.Validate(UploadHook.DefaultAcceptedTypes, UploadHook.DefaultMaxSize, File("a.pdf", "application/x-pdf", 1))
            == UploadHook.WrongType
  {
    var mime := "application/x-pdf";
    assert mime[14..17] == "pdf";
    assert UploadComponent.OccursAt(mime, "pdf", 14);
    UploadComponent.ContainsIffOccurs(mime, "pdf");
  }

  /** At their defaults the drop zone's 10 MB limit is stricter than the
      50 MiB of the hook and the service: a 20 MiB PDF passes those two and
      not the drop zone. */
  lemma DefaultSizeLimitsDiffer()
    ensures OcrService.ValidateFile(File("a.pdf", "application/pdf", 20 * 1024 * 1024))
    ensures UploadHook.Validate(UploadHook.DefaultAcceptedTypes, UploadHook.DefaultMaxSize, File("a.pdf", "application/pdf", 20 * 1024 * 1024))
            == UploadHook.Accepted
    ensures UploadComponent.Validate(UploadComponent.DefaultMaxSizeMb, File("a.pdf", "application/pdf", 20 * 1024 * 1024))
            == UploadComponent.TooLarge
  {
    var f := File("a.pdf", "application/pdf", 20 * 1024 * 1024);
    assert UploadHook.HasValidNameShape(f.name);
    UploadHook.NameShapeMatchesPattern(f.name);
    ServiceAcceptedPassesComponent(f, UploadComponent.DefaultMaxSizeMb);
  }

  /** The service's size limit is inclusive: exactly 50 MiB passes, one
      byte more does not. */
  lemma ServiceLimitIsInclusive(name: string)
    ensures OcrService.ValidateFile(File(name, OcrService.PdfMime, 50 * 1024 * 1024))
    ensures !OcrService.ValidateFile(File(name, OcrService.PdfMime, 50 * 1024 * 1024 + 1))
  {
  }
}

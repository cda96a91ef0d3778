/**
 * The upload endpoint of the invoice controller: an empty upload is
 * refused; otherwise every file is checked for an allowed content type and
 * for the size limit, all errors are collected in file order, and only an
 * upload without errors is extracted, one result per image in upload
 * order. The loop catches nothing: an image whose model call throws ends
 * the request with a server error, and the results of the images before
 * it are lost.
 */
module InvoiceUpload {
  import opened Common
  import X = InvoiceExtraction

  /** The `ImageUpload` configuration section. */
  datatype ImageUploadSettings = ImageUploadSettings(allowedMimeTypes: seq<string>, maxFileSizeBytes: int)

  /** Without configuration: no allowed type and a 10 MiB limit. */
  const DefaultSettings: ImageUploadSettings := ImageUploadSettings([], 10 * 1024 * 1024)

  /** An uploaded form file. */
  datatype FormFile = FormFile(fileName: string, contentType: string, length: int, content: seq<Byte>)

  /** One validation message, with the values it is rendered from. */
  datatype UploadError =
    | InvalidType(fileName: string, allowedTypes: seq<string>)
    | TooLarge(fileName: string, limitMiB: int)

  /** One entry of the success response. */
  datatype FileResult = FileResult(fileName: string, contentType: string, size: int, extractedInfo: X.InvoiceExtractedInfo)

  datatype ExtractResponse =
    | NoImagesProvided
    | BadRequest(errors: seq<UploadError>)
    | Ok(results: seq<FileResult>)
    | ServerError

  /** C#'s integer division, which truncates toward zero. */
  function TruncDiv(a: int, b: int): (q: int)
    requires b > 0
    ensures a >= 0 ==> q == a / b
    ensures a < 0 ==> q == -((-a) / b)
  {
    if a >= 0 then a / b else -((-a) / b)
  }

  /** The size limit as the message shows it: `MaxFileSizeBytes / 1024 / 1024`. */
  function LimitMiB(settings: ImageUploadSettings): int {
    TruncDiv(TruncDiv(settings.maxFileSizeBytes, 1024), 1024)
  }

  /** The errors of one file: the type error first, then the size error. */
  function FileErrors(settings: ImageUploadSettings, f: FormFile): (r: seq<UploadError>)
    ensures |r| <= 2
    ensures InvalidType(f.fileName, settings.allowedMimeTypes) in r <==> f.contentType !in settings.allowedMimeTypes
    ensures TooLarge(f.fileName, LimitMiB(settings)) in r <==> f.length > settings.maxFileSizeBytes
    ensures |r| == 2 ==> r[0].InvalidType? && r[1].TooLarge?
    ensures forall e :: e in r ==> e.fileName == f.fileName
  {
    (if f.contentType !in settings.allowedMimeTypes then [InvalidType(f.fileName, settings.allowedMimeTypes)] else [])
    + (if f.length > settings.maxFileSizeBytes then [TooLarge(f.fileName, LimitMiB(settings))] else [])
  }

  /** All errors of an upload: each file's errors, in file order. */
  function ValidationErrors(settings: ImageUploadSettings, images: seq<FormFile>): (r: seq<UploadError>)
    ensures |r| <= 2 * |images|
    decreases |images|
  {
    if |images| == 0 then []
    else ValidationErrors(settings, images[..|images| - 1]) + FileErrors(settings, images[|images| - 1])
  }

  /** The validation loop of `ExtractInvoiceInfo`, accumulating errors file by file. */
  method CollectErrors(settings: ImageUploadSettings, images: seq<FormFile>) returns (errors: seq<UploadError>)
    ensures errors == ValidationErrors(settings, images)
  {
    errors := [];
    var i := 0;
    while i < |images|
      invariant 0 <= i <= |images|
      invariant errors == ValidationErrors(settings, images[..i])
    {
      var image := images[i];
      if image.contentType !in settings.allowedMimeTypes {
        errors := errors + [InvalidType(image.fileName, settings.allowedMimeTypes)];
      }
      if image.length > settings.maxFileSizeBytes {
        errors := errors + [TooLarge(image.fileName, LimitMiB(settings))];
      }
      assert images[..i + 1][..i] == images[..i];
      i := i + 1;
    }
    assert images[..i] == images;
  }

  /** An upload has no errors exactly when every file has an allowed type and fits the limit. */
  lemma {:induction false} NoErrorsIffAllValid(settings: ImageUploadSettings, images: seq<FormFile>)
    ensures ValidationErrors(settings, images) == [] <==>
      forall i :: 0 <= i < |images| ==>
        images[i].contentType in settings.allowedMimeTypes && images[i].length <= settings.maxFileSizeBytes
    decreases |images|
  {
    if |images| > 0 {
      var init := images[..|images| - 1];
      NoErrorsIffAllValid(settings, init);
      assert forall i :: 0 <= i < |init| ==> init[i] == images[i];
    }
  }

  /** The response entry of one image, or `None` where its model call throws. */
  function ExtractFile(generate: (seq<Byte>, string) -> Option<string>, decode: string -> X.Decoded, f: FormFile): Option<FileResult> {
    match X.ExtractFromImage(generate, decode, f.content, f.contentType)
    case None => None
    case Some(info) => Some(FileResult(f.fileName, f.contentType, f.length, info))
  }

  /**
   * The extraction loop of `ExtractInvoiceInfo`: one entry per image in
   * upload order, or `None` as soon as one image's model call throws.
   */
  function ExtractAll(generate: (seq<Byte>, string) -> Option<string>, decode: string -> X.Decoded, files: seq<FormFile>): (r: Option<seq<FileResult>>)
    ensures r.None? <==> exists i :: 0 <= i < |files| && generate(files[i].content, files[i].contentType).None?
    ensures r.Some? ==> |r.value| == |files|
    ensures r.Some? ==> forall i :: 0 <= i < |files| ==>
      var f := files[i];
      r.value[i] == FileResult(f.fileName, f.contentType, f.length,
        X.ExtractFromImage(generate, decode, f.content, f.contentType).value)
    decreases |files|
  {
    if |files| == 0 then Some([])
    else
      match ExtractFile(generate, decode, files[0])
      case None => None
      case Some(first) =>
        match ExtractAll(generate, decode, files[1..])
        case None =>
          assert forall i :: 0 <= i < |files| - 1 ==> files[1..][i] == files[i + 1];
          None
        case Some(rest) =>
          assert forall i :: 0 <= i < |files| - 1 ==> files[1..][i] == files[i + 1];
          Some([first] + rest)
  }

  /**
   * `ExtractInvoiceInfo`, with the extraction service's generator and
   * decoder as parameters.
   */
  function ExtractInvoiceInfo(
    settings: ImageUploadSettings, images: Option<seq<FormFile>>,
    generate: (seq<Byte>, string) -> Option<string>, decode: string -> X.Decoded): (r: ExtractResponse)
    ensures (images.None? || images.value == []) <==> r.NoImagesProvided?
    ensures r.BadRequest? ==> r.errors == ValidationErrors(settings, images.value) && r.errors != []
    ensures r.Ok? || r.ServerError? ==> ValidationErrors(settings, images.value) == []
    ensures r.ServerError? <==>
      && images.Some? && images.value != [] && ValidationErrors(settings, images.value) == []
      && exists i :: 0 <= i < |images.value| && generate(images.value[i].content, images.value[i].contentType).None?
    ensures r.Ok? ==> |r.results| == |images.value|
    ensures r.Ok? ==> forall i :: 0 <= i < |images.value| ==>
      var f := images.value[i];
      r.results[i] == FileResult(f.fileName, f.contentType, f.length,
        X.ExtractFromImage(generate, decode, f.content, f.contentType).value)
  {
    if images.None? || images.value == [] then NoImagesProvided
    else
      var files := images.value;
      var errors := ValidationErrors(settings, files);
      if errors != [] then BadRequest(errors)
      else
        match ExtractAll(generate, decode, files)
        case None => ServerError
        case Some(results) => Ok(results)
  }

  /** A file exactly at the size limit is accepted; one byte more is refused. */
  lemma SizeLimitIsInclusive(settings: ImageUploadSettings, f: FormFile)
    requires f.contentType in settings.allowedMimeTypes
    ensures f.length == settings.maxFileSizeBytes ==> FileErrors(settings, f) == []
    ensures f.length == settings.maxFileSizeBytes + 1 ==> FileErrors(settings, f) == [TooLarge(f.fileName, LimitMiB(settings))]
  {
  }

  /** Without configuration every non-empty upload is refused, and the limit reads 10 MB. */
  lemma DefaultSettingsRejectEverything(images: seq<FormFile>, generate: (seq<Byte>, string) -> Option<string>, decode: string -> X.Decoded)
    requires images != []
    ensures ExtractInvoiceInfo(DefaultSettings, Some(images), generate, decode).BadRequest?
    ensures LimitMiB(DefaultSettings) == 10
  {
    NoErrorsIffAllValid(DefaultSettings, images);
    assert images[0].contentType !in DefaultSettings.allowedMimeTypes;
  }
}

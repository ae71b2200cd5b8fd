/** The `POST /api/upload` route handler: an ordered ladder of checks on
    the `file` form field, the `data:` URI built from an accepted file, and
    the response shaped from the media service's outcome. The media service
    (upload, then watermarked URL generation) is not modelled; what it
    answers is an input, and the handler's request to it is an output, so
    that "nothing is sent before validation passes" can be stated. */
module Upload {
  import opened Seqs
  import Strings
  import Base64

  /** A browser `File` received as a multipart part. Its `size` is the
      number of octets of its content. */
  datatype File = File(name: string, mimeType: string, content: seq<Base64.byte>) {
    function Size(): nat { |content| }
  }

  /** What `formData.get('file')` yields when the field exists: a file part,
      or a plain text field with the same name. */
  datatype FieldValue = FilePart(file: File) | TextPart(text: string)

  /** The request as the handler sees it: a body that `formData()` cannot
      parse, or a form whose `file` field may be missing. */
  datatype Request = Unreadable | Form(field: Option<FieldValue>)

  /** The JSON body: `{success: true, url}` or `{error}`. */
  datatype Body = Uploaded(url: string) | Error(message: string)

  datatype Response = Response(status: int, body: Body)

  /** Largest accepted file: 100 MiB. */
  const MaxSize: nat := 100 * 1024 * 1024

  const NoFileMessage: string := "No file provided"
  const TooLargeMessage: string :=
    "File too large. Maximum size is 100MB. The image will be automatically optimized after upload."
  const NotImageMessage: string := "File must be an image"
  const UploadFailedMessage: string := "Upload failed"

  /** Prefix a `type` must carry to count as an image. */
  const ImagePrefix: string := "image/"

  function BadRequest(message: string): Response {
    Response(400, Error(message))
  }

  /** Whatever is thrown inside the handler's `try` ends here. */
  const UploadFailed: Response := Response(500, Error(UploadFailedMessage))

  /** The only response shapes the handler produces: 200 with a URL, 400
      with a validation message, 500 with the generic failure. */
  predicate WellFormed(r: Response) {
    || (r.status == 200 && r.body.Uploaded?)
    || (r.status == 400 && r.body.Error?)
    || r == UploadFailed
  }

  // ---------------------------------------------------------------------
  // JavaScript's view of the field value

  /** `!file` is false: a `File` object is always truthy, a string only
      when non-empty, a missing field (`null`) never. */
  predicate Truthy(v: Option<FieldValue>) {
    match v
    case None => false
    case Some(FilePart(_)) => true
    case Some(TextPart(t)) => t != ""
  }

  /** `file.size`: a number for a file, `undefined` for a string. */
  function SizeOf(v: FieldValue): Option<nat> {
    match v
    case FilePart(f) => Some(f.Size())
    case TextPart(_) => None
  }

  /** `file.type`: a string for a file, `undefined` for a string. */
  function TypeOf(v: FieldValue): Option<string> {
    match v
    case FilePart(f) => Some(f.mimeType)
    case TextPart(_) => None
  }

  /** The request carries a file part in its `file` field. */
  predicate CarriesFile(req: Request) {
    req.Form? && req.field.Some? && req.field.value.FilePart?
  }

  /** The file part of a request that carries one. */
  function FileOf(req: Request): File
    requires CarriesFile(req)
  {
    req.field.value.file
  }

  /** The outcome of the validation ladder: the file to upload, or the
      response that ends the request. */
  datatype Verdict = Accept(file: File) | Reject(response: Response)

  /** The ladder in source order. `undefined > maxSize` is false, so a text
      field passes the size check; `undefined.startsWith` then throws, and
      the handler's `catch` answers 500. */
  function Validate(req: Request): (v: Verdict)
    ensures v.Accept? <==>
      && CarriesFile(req)
      && FileOf(req).Size() <= MaxSize
      && Strings.StartsWith(FileOf(req).mimeType, ImagePrefix)
    ensures v.Accept? ==> req == Form(Some(FilePart(v.file)))
    ensures req == Form(None) || req == Form(Some(TextPart(""))) ==>
      v == Reject(BadRequest(NoFileMessage))
    ensures CarriesFile(req) && FileOf(req).Size() > MaxSize ==>
      v == Reject(BadRequest(TooLargeMessage))
    ensures
      (CarriesFile(req) && FileOf(req).Size() <= MaxSize
       && !Strings.StartsWith(FileOf(req).mimeType, ImagePrefix)) ==>
      v == Reject(BadRequest(NotImageMessage))
    ensures req.Unreadable? ==> v == Reject(UploadFailed)
    ensures (exists t :: req == Form(Some(TextPart(t))) && t != "") ==> v == Reject(UploadFailed)
  {
    match req
    case Unreadable => Reject(UploadFailed)
    case Form(field) =>
      if !Truthy(field) then Reject(BadRequest(NoFileMessage))
      else
        var value := field.value;
        if SizeOf(value).Some? && SizeOf(value).value > MaxSize then
          Reject(BadRequest(TooLargeMessage))
        else if TypeOf(value).None? then
          Reject(UploadFailed)
        else if !Strings.StartsWith(TypeOf(value).value, ImagePrefix) then
          Reject(BadRequest(NotImageMessage))
        else
          Accept(value.file)
  }

  // ---------------------------------------------------------------------
  // The data URI

  /** The part of the URI in front of the base 64 payload. */
  function DataUriHeader(mimeType: string): string {
    "data:" + mimeType + ";base64,"
  }

  /** `data:${file.type};base64,${base64}`: the `data:` URL form of
      section 2 of RFC 2397 with a base 64 payload. */
  function DataUri(mimeType: string, content: seq<Base64.byte>): (uri: string)
    ensures |uri| == |mimeType| + 13 + (|content| + 2) / 3 * 4
    ensures uri[..|DataUriHeader(mimeType)|] == DataUriHeader(mimeType)
    ensures Base64.Decode(uri[|DataUriHeader(mimeType)|..]) == Some(content)
  {
    var header := DataUriHeader(mimeType);
    var payload := Base64.Encode(content);
    Base64.DecodeEncode(content);
    assert (header + payload)[..|header|] == header;
    assert (header + payload)[|header|..] == payload;
    header + payload
  }

  // ---------------------------------------------------------------------
  // What is sent to the media service

  /** Options of the upload call: a fixed folder, automatic quality and a
      2500 by 2500 bounding box that only ever shrinks the image. */
  datatype UploadOptions =
    UploadOptions(folder: string, quality: string, width: nat, height: nat, crop: string)

  const GalleryUpload: UploadOptions := UploadOptions("gallery", "auto:good", 2500, 2500, "limit")

  datatype Gravity = West | Center

  /** One text layer of the watermark transformation. */
  datatype TextOverlay = TextOverlay(
    fontFamily: string, fontSize: nat, fontWeight: string, text: string,
    color: string, opacity: nat, gravity: Gravity, angle: int, offsetX: Option<int>)

  const CreditText: string := "Kourtney%20Shamwell"

  /** The fixed watermark policy: two vertical, half-transparent white
      credits, one 100 pixels in from the left edge and one centred. */
  const Watermark: seq<TextOverlay> := [
    TextOverlay("Arial", 60, "bold", CreditText, "white", 50, West, -90, Some(100)),
    TextOverlay("Arial", 60, "bold", CreditText, "white", 50, Center, -90, None)
  ]

  /** The handler's requests to the media service: upload of the data URI
      with the gallery options, then a secure URL for the uploaded asset
      with the watermark layers applied. */
  datatype UpstreamCall = UpstreamCall(
    dataUri: string, options: UploadOptions, secureUrl: bool, overlays: seq<TextOverlay>)

  /** What the media service answers: the watermarked URL, or a failure of
      either the upload or the URL generation. */
  datatype Upstream = Stored(url: string) | Failed

  /** A handled request: the response, and the call made to the media
      service, if any. */
  datatype Outcome = Outcome(response: Response, call: Option<UpstreamCall>)

  /** `POST(request)`. */
  function Post(req: Request, upstream: Upstream): (o: Outcome)
    ensures o.call.Some? <==> Validate(req).Accept?
    ensures Validate(req).Reject? ==> o.response == Validate(req).response
    ensures o.call.Some? ==>
      var f := Validate(req).file;
      o.call.value == UpstreamCall(DataUri(f.mimeType, f.content), GalleryUpload, true, Watermark)
    ensures o.response.status == 200 <==> o.call.Some? && upstream.Stored?
    ensures o.response.status == 200 ==> o.response.body == Uploaded(upstream.url)
    ensures o.call.Some? && upstream.Failed? ==> o.response == UploadFailed
    ensures WellFormed(o.response)
  {
    match Validate(req)
    case Reject(response) => Outcome(response, None)
    case Accept(f) =>
      var call := UpstreamCall(DataUri(f.mimeType, f.content), GalleryUpload, true, Watermark);
      match upstream
      case Stored(url) => Outcome(Response(200, Uploaded(url)), Some(call))
      case Failed => Outcome(UploadFailed, Some(call))
  }

  /** The size check comes before the type check: an oversized file that
      is not an image is told it is too large. */
  lemma OversizedNonImage(f: File, upstream: Upstream)
    requires f.Size() > MaxSize && !Strings.StartsWith(f.mimeType, ImagePrefix)
    ensures Post(Form(Some(FilePart(f))), upstream) ==
      Outcome(BadRequest(TooLargeMessage), None)
  {
  }

  /** The limit is inclusive: a file of exactly 100 MiB passes the size
      check, and an image of that size is sent upstream. */
  lemma ExactLimitAccepted(f: File, upstream: Upstream)
    requires f.Size() == MaxSize
    ensures Post(Form(Some(FilePart(f))), upstream).response != BadRequest(TooLargeMessage)
    ensures Strings.StartsWith(f.mimeType, ImagePrefix) ==>
      Post(Form(Some(FilePart(f))), upstream).call.Some?
  {
  }

  /** The watermark is the same two layers for every request. */
  lemma WatermarkPolicy()
    ensures |Watermark| == 2
    ensures forall k | 0 <= k < |Watermark| ::
      Watermark[k].text == CreditText && Watermark[k].opacity == 50 && Watermark[k].angle == -90
    ensures Watermark[0].gravity == West && Watermark[0].offsetX == Some(100)
    ensures Watermark[1].gravity == Center && Watermark[1].offsetX == None
  {
  }
}

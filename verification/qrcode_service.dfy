/** `QRCodeServiceImpl`: validates the request, maps the correction level to an
    encoder hint, asks the QR encoder for a `size` by `size` symbol, turns it into an
    image, serialises the image and pairs the bytes with the format's media type.

    The encoder, the matrix-to-image conversion, the image writer and the media-type
    lookup are library code with no source here; they are the function-valued fields of
    `Collaborators`, and the model states how the service sequences and wraps them. */
module QRCodeServiceImpl {

  import opened Wrappers
  import opened JavaTypes
  import opened JavaText
  import opened Enums
  import opened Errors
  import V = QRCodeParameterValidator

  datatype BarcodeFormat = QR_CODE

  datatype EncodeHintType = ERROR_CORRECTION

  type EncodeHints = map<EncodeHintType, ErrorCorrectionLevel>

  /** The arguments of one `QRCodeWriter.encode` call. */
  datatype EncodeRequest =
    EncodeRequest(contents: string, format: BarcodeFormat, width: int32, height: int32, hints: EncodeHints)

  /** Library calls the service makes, left uninterpreted.
      - `encode`: `QRCodeWriter.encode`; `None` stands for a thrown `WriterException`.
      - `toImage`: `MatrixToImageWriter.toBufferedImage`.
      - `write`: `ImageIO.write` into a byte stream; `None` stands for an `IOException`.
      - `mediaTypeFor`: `ImageUtils.getMediaTypeForImageFormat`. */
  datatype Collaborators<!Matrix, !Image, Media> = Collaborators(
    encode: EncodeRequest -> Option<Matrix>,
    toImage: Matrix -> Image,
    write: (Image, string) -> Option<seq<int8>>,
    mediaTypeFor: string -> Media)

  /** `ImageResponse`: the encoded image and its media type. */
  datatype ImageResponse<Media> = ImageResponse(imageData: seq<int8>, mediaType: Media)

  /** The encoder call for a square symbol of side `size` at level `level`. */
  function SquareRequest(content: string, size: int32, level: ErrorCorrectionLevel): EncodeRequest {
    EncodeRequest(content, QR_CODE, size, size, map[ERROR_CORRECTION := level])
  }

  /** `getQRCodeHints`: an exact, case-sensitive switch over the four level names. The
      hint map has the one key `ERROR_CORRECTION`, bound to the level of that name;
      any other string throws `InvalidCorrectionLevelException`. */
  function GetQRCodeHints(correction: string): (r: Result<EncodeHints, ErrorKind>)
    ensures r.Success? <==> correction in {"L", "M", "Q", "H"}
    ensures r.Success? ==> r.value.Keys == {ERROR_CORRECTION} && r.value[ERROR_CORRECTION].Name() == correction
    ensures r.Failure? ==> r.error == InvalidCorrectionLevel
  {
    match correction
    case "L" => Success(map[ERROR_CORRECTION := L])
    case "M" => Success(map[ERROR_CORRECTION := M])
    case "Q" => Success(map[ERROR_CORRECTION := Q])
    case "H" => Success(map[ERROR_CORRECTION := H])
    case _ => Failure(InvalidCorrectionLevel)
  }

  /** `generateQRCodeImage`: upper-cases the correction string, builds the hints, asks
      the encoder for a `size` by `size` symbol and converts it to an image. An unknown
      level throws before the encoder is called; an encoder failure becomes an
      `ImageProcessingException`. */
  function GenerateQRCodeImage<Matrix, Image, Media>(content: string, size: int32, correction: string,
                                                     c: Collaborators<Matrix, Image, Media>): (r: Result<Image, ErrorKind>)
    ensures r == Failure(InvalidCorrectionLevel) <==> !V.CorrectionAccepted(Some(correction))
    ensures r.Failure? ==> r.error == InvalidCorrectionLevel || r.error == ImageProcessing
    ensures forall level: ErrorCorrectionLevel | level.Name() == ToUpper(correction) ::
              var matrix := c.encode(SquareRequest(content, size, level));
              && (r.Success? <==> matrix.Some?)
              && (r.Success? ==> r.value == c.toImage(matrix.value))
  {
    var hints :- GetQRCodeHints(ToUpper(correction));
    var level := hints[ERROR_CORRECTION];
    assert hints == map[ERROR_CORRECTION := level];
    var matrix := c.encode(EncodeRequest(content, QR_CODE, size, size, hints));
    if matrix.None? then Failure(ImageProcessing) else Success(c.toImage(matrix.value))
  }

  /** `ImageUtils.writeImageToByteArray`: the writer's bytes, or an
      `ImageProcessingException` wrapping its I/O failure. */
  function WriteImageToByteArray<Matrix, Image, Media>(image: Image, format: string,
                                                       c: Collaborators<Matrix, Image, Media>): (r: Result<seq<int8>, ErrorKind>)
    ensures r.Success? <==> c.write(image, format).Some?
    ensures r.Success? ==> Some(r.value) == c.write(image, format)
    ensures r.Failure? ==> r.error == ImageProcessing
  {
    match c.write(image, format)
    case None => Failure(ImageProcessing)
    case Some(bytes) => Success(bytes)
  }

  /** `generateQRCode`: validation runs first, and a rejected request fails with the
      validator's exception whatever the collaborators would do. Once validation
      passes, the only possible failure is `ImageProcessing`; a success carries the
      writer's bytes for the encoder's `size` by `size` symbol, and the media type of
      `format`. */
  function GenerateQRCode<Matrix, Image, Media>(content: Option<string>, size: int32, correction: Option<string>,
                                                format: Option<string>, c: Collaborators<Matrix, Image, Media>)
    : (r: Result<ImageResponse<Media>, ErrorKind>)
    ensures V.Validate(content, size, correction, format).Fail? ==>
              r == Failure(V.Validate(content, size, correction, format).error)
    ensures V.Validate(content, size, correction, format).Pass? && r.Failure? ==> r.error == ImageProcessing
    ensures r.Success? ==> V.Validate(content, size, correction, format).Pass?
                           && r.value.mediaType == c.mediaTypeFor(format.value)
  {
    match V.Validate(content, size, correction, format)
    case Fail(e) => Failure(e)
    case Pass =>
      var image :- GenerateQRCodeImage(content.value, size, correction.value, c);
      var data :- WriteImageToByteArray(image, format.value, c);
      Success(ImageResponse(data, c.mediaTypeFor(format.value)))
  }

  /** The four level names map to the level of the same name, and no two names map to
      the same hints. */
  lemma HintsInjective(a: string, b: string)
    requires GetQRCodeHints(a).Success? && GetQRCodeHints(a) == GetQRCodeHints(b)
    ensures a == b
    ensures GetQRCodeHints("L") == Success(map[ERROR_CORRECTION := L])
    ensures GetQRCodeHints("M") == Success(map[ERROR_CORRECTION := M])
    ensures GetQRCodeHints("Q") == Success(map[ERROR_CORRECTION := Q])
    ensures GetQRCodeHints("H") == Success(map[ERROR_CORRECTION := H])
  {
  }

  /** Correction strings with the same upper case give the same outcome, so `l`, `m`,
      `q` and `h` act as `L`, `M`, `Q` and `H`. */
  lemma CorrectionCaseIgnored<Matrix, Image, Media>(content: string, size: int32, a: string, b: string,
                                                    c: Collaborators<Matrix, Image, Media>)
    requires ToUpper(a) == ToUpper(b)
    ensures GenerateQRCodeImage(content, size, a, c) == GenerateQRCodeImage(content, size, b, c)
    ensures GenerateQRCodeImage(content, size, "l", c) == GenerateQRCodeImage(content, size, "L", c)
    ensures GenerateQRCodeImage(content, size, "h", c) == GenerateQRCodeImage(content, size, "H", c)
  {
  }

  /** With the validator bypassed, an unknown level still throws
      `InvalidCorrectionLevelException`, and the encoder is never consulted: the
      outcome is the same for any collaborators. */
  lemma UnknownCorrectionRejectedWithoutValidation<Matrix, Image, Media>(
    content: string, size: int32, correction: string,
    c1: Collaborators<Matrix, Image, Media>, c2: Collaborators<Matrix, Image, Media>)
    requires !V.CorrectionAccepted(Some(correction))
    ensures GenerateQRCodeImage(content, size, correction, c1) == Failure(InvalidCorrectionLevel)
    ensures GenerateQRCodeImage(content, size, correction, c1) == GenerateQRCodeImage(content, size, correction, c2)
  {
  }

  /** The encoder is asked only for a square symbol of side `size`: collaborators that
      agree on those calls and on the conversion to an image give the same image. */
  lemma EncoderAskedForSquareSymbol<Matrix, Image, Media>(
    content: string, size: int32, correction: string,
    c1: Collaborators<Matrix, Image, Media>, c2: Collaborators<Matrix, Image, Media>)
    requires forall level :: c1.encode(SquareRequest(content, size, level)) == c2.encode(SquareRequest(content, size, level))
    requires c1.toImage == c2.toImage
    ensures GenerateQRCodeImage(content, size, correction, c1) == GenerateQRCodeImage(content, size, correction, c2)
  {
  }

  /** A failing encoder yields `ImageProcessing`, never a request-parameter error. */
  lemma EncoderFailureIsImageProcessing<Matrix, Image, Media>(
    content: string, size: int32, correction: string, level: ErrorCorrectionLevel,
    c: Collaborators<Matrix, Image, Media>)
    requires ToUpper(correction) == level.Name()
    requires c.encode(SquareRequest(content, size, level)).None?
    ensures GenerateQRCodeImage(content, size, correction, c) == Failure(ImageProcessing)
  {
  }

  /** Once validation passes, the call succeeds exactly when the encoder yields a
      square symbol at the named level and the writer serialises its image, and the
      response carries the writer's bytes. */
  lemma GenerateQRCodeUsesEncoderAndWriter<Matrix, Image, Media>(
    content: Option<string>, size: int32, correction: Option<string>, format: Option<string>,
    level: ErrorCorrectionLevel, c: Collaborators<Matrix, Image, Media>)
    requires V.Validate(content, size, correction, format).Pass?
    requires level.Name() == ToUpper(correction.value)
    ensures var r := GenerateQRCode(content, size, correction, format, c);
            var matrix := c.encode(SquareRequest(content.value, size, level));
            var bytes := if matrix.Some? then c.write(c.toImage(matrix.value), format.value) else None;
            && (r.Success? <==> bytes.Some?)
            && (r.Success? ==> r.value.imageData == bytes.value)
  {
  }

  /** Two successful calls with the same format carry the same media type, whatever
      their content, size and correction level. */
  lemma MediaTypeDependsOnlyOnFormat<Matrix, Image, Media>(
    content1: Option<string>, size1: int32, correction1: Option<string>,
    content2: Option<string>, size2: int32, correction2: Option<string>,
    format: Option<string>, c: Collaborators<Matrix, Image, Media>)
    ensures var r1 := GenerateQRCode(content1, size1, correction1, format, c);
            var r2 := GenerateQRCode(content2, size2, correction2, format, c);
            r1.Success? && r2.Success? ==> r1.value.mediaType == r2.value.mediaType
  {
  }
}

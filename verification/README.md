# QR code request layer — a Dafny model

The QR code API receives a generation request: text content, pixel size, error-correction
level and image format. It validates the request and hands the content to ZXing's QR
encoder for a square symbol of the requested size. It then serialises the image and
returns the bytes with the format's media type. Exceptions that escape a controller are
turned into an HTTP status and a `{ "error": message }` body.

This project models the decision logic the repository itself owns. The modules follow
its classes:

- `Wrappers`: `Option` stands for a nullable reference, `Result` and `Outcome` for a call that may throw.
- `JavaText`: the `String` operations the code relies on: `isBlank`, `toUpperCase` and `equalsIgnoreCase`.
- `JavaTypes`: Java's `int` and `byte`.
- `Enums`: the `ImageFormat` enum with its media types, and ZXing's `ErrorCorrectionLevel` names.
- `Errors`: one constructor per application exception class.
- `QRCodeParameterValidator`: the four-stage validator (content, size, correction level, format), with a first-failure order.
- `ParameterValidator`: the older two-stage validator (size, format), proved to agree with the newer one.
- `QRCodeServiceImpl`: the correction-level hints, and the order of validate, encode, write and media type. It also covers how encoder and writer failures are wrapped. The encoder, the matrix-to-image step, the image writer and the media-type lookup are uninterpreted. They are the function fields of `Collaborators`.
- `GlobalExceptionHandler`: the exception to (status, body) table, and the three messages it builds itself.

Every operation is a pure function, so repeating a call with the same inputs gives the
same outcome by construction.

Facts about the code that shape the model:

- The validator checks four parameters. Colour and margin have exception classes but no acceptance rules.
- A `WriterException` from the encoder is wrapped as `ImageProcessingException` and answered with 500. That includes content too long for any symbol version.
- The service implementation takes four parameters. The `QRCodeService` interface declares seven, but the implementation and its tests use four.

## Model

| member | source | states |
|---|---|---|
| JavaText.IndexOfNonWhitespace | src/main/java/br/com/dv/qrcodeapi/validation/QRCodeParameterValidator.java:53-55 | the scan behind `isBlank` returns the first non-whitespace index at or after the start, or the length when every remaining character is whitespace |
| JavaText.IsBlank | src/main/java/br/com/dv/qrcodeapi/validation/QRCodeParameterValidator.java:53-55 | a string is blank exactly when every character is whitespace; the empty string is blank |
| JavaText.ToUpper | src/main/java/br/com/dv/qrcodeapi/service/QRCodeServiceImpl.java:44 | upper-casing keeps the length and replaces each character by its upper case |
| JavaText.IsWhitespace | src/main/java/br/com/dv/qrcodeapi/validation/QRCodeParameterValidator.java:53-55 | `Character.isWhitespace`, as used by `isBlank`: space, tab, newline and carriage return are whitespace; the three no-break spaces, letters and digits are not |
| JavaText.RegionMatchesIffSameUpper | src/main/java/br/com/dv/qrcodeapi/validation/QRCodeParameterValidator.java:61-69 | the per-character comparison behind `equalsIgnoreCase` (equal directly, after upper-casing or after lower-casing) holds exactly when the upper-cased strings are equal |
| JavaText.EqualsIgnoreCase | src/main/java/br/com/dv/qrcodeapi/validation/QRCodeParameterValidator.java:61-69 | `name.equalsIgnoreCase(s)` holds exactly when `s` is not null and has the same upper case as `name` |
| Enums.FormatValuesExact | src/main/java/br/com/dv/qrcodeapi/enums/ImageFormat.java:7-9 | the supported formats are exactly PNG, JPEG and GIF, in that order, each once |
| Enums.CorrectionValuesExact | src/main/java/br/com/dv/qrcodeapi/validation/QRCodeParameterValidator.java:20 | the correction levels are exactly L, M, Q and H, in that order, with distinct upper-case names |
| Enums.ImageFormat.MediaType | src/main/java/br/com/dv/qrcodeapi/enums/ImageFormat.java:11-19 | each format's media type is image/ followed by its lower-cased name |
| Enums.MediaTypeInjective | src/main/java/br/com/dv/qrcodeapi/enums/ImageFormat.java:7-19 | PNG, JPEG and GIF carry image/png, image/jpeg and image/gif, and no two formats share a media type |
| Enums.FormatNameMatches | src/main/java/br/com/dv/qrcodeapi/validation/QRCodeParameterValidator.java:66-69 | the stream match of a string against the `ImageFormat` names ignoring case succeeds exactly when its upper case is PNG, JPEG or GIF |
| Enums.CorrectionNameMatches | src/main/java/br/com/dv/qrcodeapi/validation/QRCodeParameterValidator.java:61-64 | the stream match against the `ErrorCorrectionLevel` names ignoring case succeeds exactly when the upper case is L, M, Q or H |
| QRCodeParameterValidator.IsContentInvalid | src/main/java/br/com/dv/qrcodeapi/validation/QRCodeParameterValidator.java:53-55 | content is rejected exactly when it is null or has no non-whitespace character |
| QRCodeParameterValidator.IsSizeInvalid | src/main/java/br/com/dv/qrcodeapi/validation/QRCodeParameterValidator.java:57-59 | size is rejected exactly when it lies outside 150..350 inclusive |
| QRCodeParameterValidator.IsCorrectionLevelInvalid | src/main/java/br/com/dv/qrcodeapi/validation/QRCodeParameterValidator.java:61-64 | the correction level is rejected exactly when it is null or its upper case is not L, M, Q or H |
| QRCodeParameterValidator.IsFormatInvalid | src/main/java/br/com/dv/qrcodeapi/validation/QRCodeParameterValidator.java:66-69 | the format is rejected exactly when it is null or its upper case is not PNG, JPEG or GIF |
| QRCodeParameterValidator.Validate | src/main/java/br/com/dv/qrcodeapi/validation/QRCodeParameterValidator.java:22-51 | passes exactly when all four stages accept; otherwise fails with the first failing stage's error in the order content, size, correction, format, and never with a colour, margin or server error |
| QRCodeParameterValidator.BlankContentRejected | src/main/java/br/com/dv/qrcodeapi/validation/QRCodeParameterValidator.java:53-55 | null, empty, one space, three spaces, tab and newline content, and any all-whitespace content, fail with InvalidContent whatever the other parameters |
| QRCodeParameterValidator.NonBlankContentAccepted | src/main/java/br/com/dv/qrcodeapi/validation/QRCodeParameterValidator.java:53-55 | content with one non-whitespace character passes the content stage, including 1000 a's and mixed-script text |
| QRCodeParameterValidator.SizeBoundaries | src/main/java/br/com/dv/qrcodeapi/validation/QRCodeParameterValidator.java:57-59 | 150 and 350 are accepted; 149, 351, 0 and 500 are rejected |
| QRCodeParameterValidator.CorrectionLevelsAccepted | src/main/java/br/com/dv/qrcodeapi/validation/QRCodeParameterValidator.java:61-64 | l, m, q, h and L, M, Q, H all pass |
| QRCodeParameterValidator.CorrectionNearMissesRejected | src/main/java/br/com/dv/qrcodeapi/validation/QRCodeParameterValidator.java:61-64 | LOW, 1, A and null fail |
| QRCodeParameterValidator.FormatsAccepted | src/main/java/br/com/dv/qrcodeapi/validation/QRCodeParameterValidator.java:66-69 | png, jpeg, gif pass in lower and upper case |
| QRCodeParameterValidator.OtherFormatsRejected | src/main/java/br/com/dv/qrcodeapi/validation/QRCodeParameterValidator.java:66-69 | the empty string, bmp, webp and null fail |
| ParameterValidator.IsSizeInvalid | src/main/java/br/com/dv/qrcodeapi/validation/ParameterValidator.java:35-37 | size is rejected exactly when it lies outside 150..350 inclusive |
| ParameterValidator.IsFormatInvalid | src/main/java/br/com/dv/qrcodeapi/validation/ParameterValidator.java:39-42 | the format is rejected exactly when it is null or not one of the three `ImageFormat` names ignoring case |
| ParameterValidator.Validate | src/main/java/br/com/dv/qrcodeapi/validation/ParameterValidator.java:18-33 | passes exactly when size and format are acceptable; a bad size is reported before a bad format |
| ParameterValidator.AgreesWithQRCodeParameterValidator | src/main/java/br/com/dv/qrcodeapi/validation/ParameterValidator.java:14-16 | both validators share their bounds and stage predicates, and give the same outcome for every size and format once content and correction level are acceptable |
| QRCodeServiceImpl.GetQRCodeHints | src/main/java/br/com/dv/qrcodeapi/service/QRCodeServiceImpl.java:53-65 | succeeds exactly for L, M, Q and H, with one ERROR_CORRECTION hint bound to the level of that name; anything else fails with InvalidCorrectionLevel |
| QRCodeServiceImpl.HintsInjective | src/main/java/br/com/dv/qrcodeapi/service/QRCodeServiceImpl.java:56-60 | each of L, M, Q, H maps to its own level and no two names map to the same hints |
| QRCodeServiceImpl.GenerateQRCodeImage | src/main/java/br/com/dv/qrcodeapi/service/QRCodeServiceImpl.java:43-51 | fails with InvalidCorrectionLevel exactly when the upper-cased level is not L, M, Q or H; otherwise succeeds exactly when the encoder returns a matrix for the square request at that level, with that matrix's image; any other failure is ImageProcessing |
| QRCodeServiceImpl.CorrectionCaseIgnored | src/main/java/br/com/dv/qrcodeapi/service/QRCodeServiceImpl.java:44 | correction strings with equal upper case give the same outcome, so l acts as L and h as H |
| QRCodeServiceImpl.UnknownCorrectionRejectedWithoutValidation | src/main/java/br/com/dv/qrcodeapi/service/QRCodeServiceImpl.java:61 | with the validator bypassed, an unknown level still fails with InvalidCorrectionLevel, and the outcome does not depend on the encoder |
| QRCodeServiceImpl.EncoderAskedForSquareSymbol | src/main/java/br/com/dv/qrcodeapi/service/QRCodeServiceImpl.java:46 | the outcome depends on the encoder only at requests with width = height = size |
| QRCodeServiceImpl.EncoderFailureIsImageProcessing | src/main/java/br/com/dv/qrcodeapi/service/QRCodeServiceImpl.java:48-49 | a `WriterException` from the encoder at the requested level becomes ImageProcessing |
| QRCodeServiceImpl.WriteImageToByteArray | src/main/java/br/com/dv/qrcodeapi/util/ImageUtils.java:19-26 | succeeds exactly when the writer does, with its bytes; a writer failure becomes ImageProcessing |
| QRCodeServiceImpl.GenerateQRCode | src/main/java/br/com/dv/qrcodeapi/service/QRCodeServiceImpl.java:32-41 | a request the validator rejects fails with the validator's error whatever the collaborators do; after validation only ImageProcessing can fail; a success carries the media type of the format |
| QRCodeServiceImpl.GenerateQRCodeUsesEncoderAndWriter | src/main/java/br/com/dv/qrcodeapi/service/QRCodeServiceImpl.java:34-40 | once validation passes, the call succeeds exactly when the encoder returns a square symbol at the named level and the writer serialises its image, and the response carries the writer's bytes |
| QRCodeServiceImpl.MediaTypeDependsOnlyOnFormat | src/main/java/br/com/dv/qrcodeapi/service/QRCodeServiceImpl.java:38 | two successful calls with the same format carry the same media type, whatever their content, size and correction |
| GlobalExceptionHandler.StatusFor | src/main/java/br/com/dv/qrcodeapi/exception/GlobalExceptionHandler.java:48-96 | request-parameter errors map to 400; ImageProcessing is the one server error; email conflict is 409, bad credentials 401, missing QR code 404 |
| GlobalExceptionHandler.StatusCodes | src/main/java/br/com/dv/qrcodeapi/exception/GlobalExceptionHandler.java:53-96 | the numeric codes of the table: 400 for the six parameter errors, 500, 409, 401 and 404 |
| GlobalExceptionHandler.TypeMismatchMessage | src/main/java/br/com/dv/qrcodeapi/exception/GlobalExceptionHandler.java:18-26 | the type-mismatch message is the fixed template `Invalid parameter value '%s' for '%s'`: its length, the prefix, the value, the infix, the property name and the closing quote each sit at fixed offsets given the value's length |
| GlobalExceptionHandler.TypeMismatchExample | src/main/java/br/com/dv/qrcodeapi/exception/GlobalExceptionHandler.java:20-24 | value abc for property size gives "Invalid parameter value 'abc' for 'size'", and a null value is shown as null |
| GlobalExceptionHandler.Show | src/main/java/br/com/dv/qrcodeapi/exception/GlobalExceptionHandler.java:20-24 | `%s` and string concatenation render a non-null string as itself and null as "null" |
| GlobalExceptionHandler.NonNull | src/main/java/br/com/dv/qrcodeapi/exception/GlobalExceptionHandler.java:30-32 | the filtered messages are exactly the non-null ones; the result is empty exactly when every message is null |
| GlobalExceptionHandler.NonNullAppend | src/main/java/br/com/dv/qrcodeapi/exception/GlobalExceptionHandler.java:30-32 | filtering commutes with concatenation, so the messages keep their order |
| GlobalExceptionHandler.Join | src/main/java/br/com/dv/qrcodeapi/exception/GlobalExceptionHandler.java:33 | the join's length is the parts' total length plus one separator between each pair; it starts with the first part, and a single part is joined to itself |
| GlobalExceptionHandler.JoinAppend | src/main/java/br/com/dv/qrcodeapi/exception/GlobalExceptionHandler.java:33 | joining a concatenation is joining each half with one separator between them, so every part appears in order with the separator between neighbours |
| GlobalExceptionHandler.JoinEmptyIff | src/main/java/br/com/dv/qrcodeapi/exception/GlobalExceptionHandler.java:33-37 | with a non-empty separator the join is empty exactly for no parts or a single empty part |
| GlobalExceptionHandler.ValidationMessage | src/main/java/br/com/dv/qrcodeapi/exception/GlobalExceptionHandler.java:28-40 | never empty; "Validation error" when there is no non-null field message or only one empty one; a single non-empty message is used as is; two or more are joined with ", " |
| GlobalExceptionHandler.Handle | src/main/java/br/com/dv/qrcodeapi/exception/GlobalExceptionHandler.java:18-101 | application exceptions get their table status and their own message as body; the framework exceptions get 400 and a non-null message; the only 5xx outcome is ImageProcessing; an unreadable body's message is "Invalid request body: " and the cause's message |
| GlobalExceptionHandler.GenerationFailureResponse | src/main/java/br/com/dv/qrcodeapi/exception/GlobalExceptionHandler.java:98-101 | a failed generation is answered with 400 when the validator rejected the request and with 500 otherwise, with the exception's message as body |

## Left out

- QR symbol construction (version choice, Reed–Solomon codewords, module placement, masking) is done by ZXing's `QRCodeWriter`. The model treats the encoder as an uninterpreted function that may fail.
- `MatrixToImageWriter.toBufferedImage` and the ImageIO writer are uninterpreted functions. The writer may return any byte sequence, including the empty one that `ImageIO.write` leaves when it finds no writer.
- `ImageUtils.getMediaTypeForImageFormat` is not part of this model. The media type of a response is only a function of the format string.
- Colour and margin validation has no acceptance rule in the code, only the `InvalidColor` and `InvalidMargin` error kinds and their 400 status. The seven-parameter `QRCodeService` interface is left out for the same reason.
- The controllers, request-parameter binding and defaults, the blank-canvas `ImageServiceImpl`, `AppUser`, the health endpoint and the frontend are transport, persistence or UI.
- The messages of the application exceptions other than the handler's own are a field of `GlobalExceptionHandler.Exception`. Their classes are not part of this model.
- QRCodeServiceImpl.GenerateQRCodeImage: takes a non-null correction string. With the validator bypassed, a null one makes the source throw a `NullPointerException` at `toUpperCase`, which is not modelled. Only `WriterException` failures of the encoder are modelled. Unchecked exceptions from the encoder propagate unwrapped in the code; an example is `IllegalArgumentException` for empty content or a negative size. Validation excludes those inputs, but on the path that bypasses the validator the model cannot express them.
- JavaText.ToUpper: folds ASCII letters only. Java's Unicode and locale-dependent upper-casing is not modelled. For the level names L, M, Q and H the two agree.
- JavaText.EqualsIgnoreCase: states ASCII case-insensitive equality. In Java, dotless ı and dotted İ also match I, so `"gıf".equalsIgnoreCase("GIF")` holds there but not in the model.
- JavaText.IsBlank: works on Dafny characters (Unicode scalar values). Java scans UTF-16 code points, and the whitespace table is Java's `Character.isWhitespace`.

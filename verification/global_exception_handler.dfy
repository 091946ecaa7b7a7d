/** `GlobalExceptionHandler`: turns every exception that escapes a controller into an
    HTTP status and an `ApiError` body `{ "error": message }`. Application exceptions
    keep their own message; the three framework exceptions get a message built here. */
module GlobalExceptionHandler {

  import opened Wrappers
  import opened JavaTypes
  import opened JavaText
  import opened Errors
  import V = QRCodeParameterValidator
  import S = QRCodeServiceImpl

  datatype HttpStatus = BadRequest | Unauthorized | NotFound | Conflict | InternalServerError {

    function Code(): int {
      match this
      case BadRequest => 400
      case Unauthorized => 401
      case NotFound => 404
      case Conflict => 409
      case InternalServerError => 500
    }

    predicate IsServerError() {
      500 <= Code() < 600
    }
  }

  /** `ApiError`: the response body; its `error` component may be null. */
  datatype ApiError = ApiError(error: Option<string>)

  datatype Response = Response(status: HttpStatus, body: ApiError)

  /** The exceptions the advice handles. `Raised` is an application exception with the
      string its `getMessage()` returns; the others are Spring's binding and parsing
      exceptions, reduced to the parts the messages use. */
  datatype Exception =
    | Raised(kind: ErrorKind, message: Option<string>)
    | TypeMismatch(value: Option<string>, propertyName: Option<string>)
    | MethodArgumentNotValid(fieldMessages: seq<Option<string>>)
    | MessageNotReadable(causeMessage: Option<string>)

  /** How `String.format("%s")` and string concatenation render a possibly-null string. */
  function Show(s: Option<string>): (r: string)
    ensures s.Some? ==> r == s.value
    ensures s.None? ==> r == "null"
  {
    if s.None? then "null" else s.value
  }

  /** The status table of the `handle*` methods for application exceptions: every
      request-parameter fault is a bad request, image processing is the one server
      error, and the account and lookup faults have statuses of their own. */
  function StatusFor(kind: ErrorKind): (s: HttpStatus)
    ensures s == BadRequest <==> kind.IsRequestParameterError()
    ensures s.IsServerError() <==> kind == ImageProcessing
    ensures s == Conflict <==> kind == EmailAlreadyExists
    ensures s == Unauthorized <==> kind == InvalidCredentials
    ensures s == NotFound <==> kind == QRCodeNotFound
  {
    match kind
    case InvalidContent => BadRequest
    case InvalidImageSize => BadRequest
    case InvalidCorrectionLevel => BadRequest
    case InvalidImageFormat => BadRequest
    case InvalidColor => BadRequest
    case InvalidMargin => BadRequest
    case ImageProcessing => InternalServerError
    case EmailAlreadyExists => Conflict
    case InvalidCredentials => Unauthorized
    case QRCodeNotFound => NotFound
  }

  const TypeMismatchPrefix := "Invalid parameter value '"
  const TypeMismatchInfix := "' for '"
  const UnreadableBodyPrefix := "Invalid request body: "
  const ValidationErrorFallback := "Validation error"
  const FieldMessageSeparator := ", "

  /** `handleTypeMismatchException`'s message: the fixed template with the value and
      the property name quoted in it, each at an offset fixed by the value's length. */
  function TypeMismatchMessage(value: Option<string>, propertyName: Option<string>): (m: string)
    ensures |m| == |TypeMismatchPrefix| + |Show(value)| + |TypeMismatchInfix| + |Show(propertyName)| + 1
    ensures m[..25] == "Invalid parameter value '"
    ensures m[25..25 + |Show(value)|] == Show(value)
    ensures m[25 + |Show(value)|..32 + |Show(value)|] == "' for '"
    ensures m[32 + |Show(value)|..|m| - 1] == Show(propertyName)
    ensures m[|m| - 1] == '\''
  {
    TypeMismatchPrefix + Show(value) + TypeMismatchInfix + Show(propertyName) + "'"
  }

  /** A filled-in instance of the template. */
  lemma TypeMismatchExample()
    ensures TypeMismatchMessage(Some("abc"), Some("size")) == "Invalid parameter value 'abc' for 'size'"
    ensures TypeMismatchMessage(None, Some("size")) == "Invalid parameter value 'null' for 'size'"
  {
  }

  /** `filter(Objects::nonNull)`: the non-null messages, in their original order. */
  function NonNull(messages: seq<Option<string>>): (r: seq<string>)
    ensures |r| <= |messages|
    ensures forall s :: s in r <==> Some(s) in messages
    ensures |r| == 0 <==> forall i :: 0 <= i < |messages| ==> messages[i].None?
  {
    if messages == [] then []
    else if messages[0].None? then NonNull(messages[1..])
    else [messages[0].value] + NonNull(messages[1..])
  }

  /** Filtering commutes with concatenation, so the order of the messages is kept. */
  lemma {:induction false} NonNullAppend(xs: seq<Option<string>>, ys: seq<Option<string>>)
    ensures NonNull(xs + ys) == NonNull(xs) + NonNull(ys)
  {
    if xs == [] {
      assert xs + ys == ys;
    } else {
      assert (xs + ys)[0] == xs[0];
      assert (xs + ys)[1..] == xs[1..] + ys;
      NonNullAppend(xs[1..], ys);
    }
  }

  function SumOfLengths(parts: seq<string>): nat {
    if parts == [] then 0 else |parts[0]| + SumOfLengths(parts[1..])
  }

  /** `Collectors.joining(sep)`: the parts in order with `sep` between neighbours. */
  function Join(parts: seq<string>, sep: string): (r: string)
    ensures |r| == SumOfLengths(parts) + (if parts == [] then 0 else (|parts| - 1) * |sep|)
    ensures |parts| > 0 ==> r[..|parts[0]|] == parts[0]
    ensures |parts| == 1 ==> r == parts[0]
  {
    if parts == [] then ""
    else if |parts| == 1 then parts[0]
    else parts[0] + sep + Join(parts[1..], sep)
  }

  /** Joining a concatenation joins each half and puts one separator between them, so
      every part appears, in order, with the separator between neighbours. */
  lemma {:induction false} JoinAppend(xs: seq<string>, ys: seq<string>, sep: string)
    requires xs != [] && ys != []
    ensures Join(xs + ys, sep) == Join(xs, sep) + sep + Join(ys, sep)
  {
    assert (xs + ys)[0] == xs[0];
    if |xs| == 1 {
      assert (xs + ys)[1..] == ys;
    } else {
      assert (xs + ys)[1..] == xs[1..] + ys;
      JoinAppend(xs[1..], ys, sep);
    }
  }

  /** With a non-empty separator, the join is empty only for no parts or one empty part. */
  lemma JoinEmptyIff(parts: seq<string>, sep: string)
    requires sep != ""
    ensures Join(parts, sep) == "" <==> parts == [] || (|parts| == 1 && parts[0] == "")
  {
  }

  /** `handleMethodArgumentNotValid`'s message: the non-null field messages joined
      with ", ", or "Validation error" when that join is empty. Never empty itself. */
  function ValidationMessage(fieldMessages: seq<Option<string>>): (m: string)
    ensures m != ""
    ensures NonNull(fieldMessages) == [] || NonNull(fieldMessages) == [""] ==> m == ValidationErrorFallback
    ensures (forall i :: 0 <= i < |fieldMessages| ==> fieldMessages[i].None?) ==> m == ValidationErrorFallback
    ensures forall s :: NonNull(fieldMessages) == [s] && s != "" ==> m == s
    ensures |NonNull(fieldMessages)| >= 2 ==> m == Join(NonNull(fieldMessages), FieldMessageSeparator)
  {
    var joined := Join(NonNull(fieldMessages), FieldMessageSeparator);
    JoinEmptyIff(NonNull(fieldMessages), FieldMessageSeparator);
    if joined == "" then ValidationErrorFallback else joined
  }

  /** The advice as a whole. Application exceptions get the status of `StatusFor` and
      their own message as the body; the framework exceptions are bad requests with a
      non-null message. The only server error is an image-processing failure. */
  function Handle(e: Exception): (r: Response)
    ensures e.Raised? ==> r.status == StatusFor(e.kind) && r.body.error == e.message
    ensures !e.Raised? ==> r.status == BadRequest && r.body.error.Some?
    ensures r.status.IsServerError() <==> e.Raised? && e.kind == ImageProcessing
    ensures r.status.Code() == 400 <==> !e.Raised? || e.kind.IsRequestParameterError()
    ensures e.MessageNotReadable? ==>
              r.body.error == Some(UnreadableBodyPrefix + Show(e.causeMessage))
    ensures e.MethodArgumentNotValid? ==> r.body.error == Some(ValidationMessage(e.fieldMessages))
    ensures e.TypeMismatch? ==> r.body.error == Some(TypeMismatchMessage(e.value, e.propertyName))
  {
    match e
    case TypeMismatch(value, propertyName) =>
      Response(BadRequest, ApiError(Some(TypeMismatchMessage(value, propertyName))))
    case MethodArgumentNotValid(fieldMessages) =>
      Response(BadRequest, ApiError(Some(ValidationMessage(fieldMessages))))
    case MessageNotReadable(causeMessage) =>
      Response(BadRequest, ApiError(Some(UnreadableBodyPrefix + Show(causeMessage))))
    case Raised(kind, message) =>
      Response(StatusFor(kind), ApiError(message))
  }

  /** The concrete status codes of the table. */
  lemma StatusCodes()
    ensures forall k: ErrorKind :: k.IsRequestParameterError() ==> StatusFor(k).Code() == 400
    ensures StatusFor(ImageProcessing).Code() == 500
    ensures StatusFor(EmailAlreadyExists).Code() == 409
    ensures StatusFor(InvalidCredentials).Code() == 401
    ensures StatusFor(QRCodeNotFound).Code() == 404
  {
  }

  /** A failed generation answers 400 when the request was rejected by the validator
      and 500 otherwise, with the exception's own message as the body. */
  lemma GenerationFailureResponse<Matrix, Image, Media>(
    content: Option<string>, size: int32, correction: Option<string>, format: Option<string>,
    c: S.Collaborators<Matrix, Image, Media>, message: Option<string>)
    requires S.GenerateQRCode(content, size, correction, format, c).Failure?
    ensures var r := Handle(Raised(S.GenerateQRCode(content, size, correction, format, c).error, message));
            && r.status.Code() == (if V.Validate(content, size, correction, format).Pass? then 500 else 400)
            && r.body.error == message
  {
  }
}

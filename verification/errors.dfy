/** The exceptions the application raises, one constructor per exception class of
    the `exception` package. Only the kind matters to the validators and the service;
    the message each carries is part of `GlobalExceptionHandler.Exception`. */
module Errors {

  datatype ErrorKind =
    | InvalidContent          // InvalidContentException
    | InvalidImageSize        // InvalidImageSizeException
    | InvalidCorrectionLevel  // InvalidCorrectionLevelException
    | InvalidImageFormat      // InvalidImageFormatException
    | InvalidColor            // InvalidColorException
    | InvalidMargin           // InvalidMarginException
    | ImageProcessing         // ImageProcessingException, wrapping a writer or I/O failure
    | EmailAlreadyExists      // EmailAlreadyExistsException
    | InvalidCredentials      // InvalidCredentialsException
    | QRCodeNotFound          // QRCodeNotFoundException
  {
    /** The faults caused by a bad generation request rather than by the server. */
    predicate IsRequestParameterError() {
      InvalidContent? || InvalidImageSize? || InvalidCorrectionLevel? || InvalidImageFormat?
      || InvalidColor? || InvalidMargin?
    }
  }
}

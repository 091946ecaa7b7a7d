/** `ParameterValidator`: the older two-stage check of the blank-image endpoint,
    size first, then image format. Its constants and stage predicates are its own
    copies; `AgreesWithQRCodeParameterValidator` shows they decide as the newer
    validator's size and format stages do. */
module ParameterValidator {

  import opened Wrappers
  import opened JavaTypes
  import opened JavaText
  import opened Enums
  import opened Errors
  import V = QRCodeParameterValidator

  const MinImageSize: int32 := 150
  const MaxImageSize: int32 := 350

  /** `isSizeInvalid`: below the minimum or above the maximum. */
  predicate IsSizeInvalid(size: int32)
    ensures IsSizeInvalid(size) <==> !V.SizeAccepted(size)
  {
    size < MinImageSize || size > MaxImageSize
  }

  /** `isFormatInvalid`: null, or no `ImageFormat` name equals it ignoring case. */
  predicate IsFormatInvalid(format: Option<string>)
    ensures IsFormatInvalid(format) <==> !V.FormatAccepted(format)
  {
    format.None?
    || (FormatNameMatches(format.value);
        !exists f :: f in FormatValues && EqualsIgnoreCase(f.Name(), format))
  }

  /** `validate(size, format)`: returns normally exactly when both stages accept;
      a bad size is reported even when the format is bad too. */
  function Validate(size: int32, format: Option<string>): (r: Outcome<ErrorKind>)
    ensures r.Pass? <==> V.SizeAccepted(size) && V.FormatAccepted(format)
    ensures r == Fail(InvalidImageSize) <==> !V.SizeAccepted(size)
    ensures r == Fail(InvalidImageFormat) <==> V.SizeAccepted(size) && !V.FormatAccepted(format)
  {
    if IsSizeInvalid(size) then Fail(InvalidImageSize)
    else if IsFormatInvalid(format) then Fail(InvalidImageFormat)
    else Pass
  }

  /** Both validators use the same bounds, and on a request whose content and
      correction level are acceptable they give the same outcome for every size and
      format. */
  lemma AgreesWithQRCodeParameterValidator(content: Option<string>, size: int32,
                                           correction: Option<string>, format: Option<string>)
    requires V.ContentAccepted(content) && V.CorrectionAccepted(correction)
    ensures MinImageSize == V.MinImageSize && MaxImageSize == V.MaxImageSize
    ensures Validate(size, format) == V.Validate(content, size, correction, format)
    ensures IsSizeInvalid(size) == V.IsSizeInvalid(size)
    ensures IsFormatInvalid(format) == V.IsFormatInvalid(format)
  {
  }
}

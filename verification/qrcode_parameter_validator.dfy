/** `QRCodeParameterValidator`: the four-stage check of a generation request. Each
    stage throws its own exception, and the stages run in the fixed order content,
    size, correction level, image format, so the first failing stage is reported. */
module QRCodeParameterValidator {

  import opened Wrappers
  import opened JavaTypes
  import opened JavaText
  import opened Enums
  import opened Errors

  const MinImageSize: int32 := 150
  const MaxImageSize: int32 := 350

  // What each stage accepts, stated without the enum streams of the implementation.

  /** Content is present and holds at least one non-whitespace character. */
  predicate ContentAccepted(content: Option<string>) {
    content.Some? && exists i :: 0 <= i < |content.value| && !IsWhitespace(content.value[i])
  }

  /** Size lies in 150..350 pixels, both ends included. */
  predicate SizeAccepted(size: int32) {
    150 <= size <= 350
  }

  /** The correction level is L, M, Q or H in either case. */
  predicate CorrectionAccepted(correction: Option<string>) {
    correction.Some? && ToUpper(correction.value) in {"L", "M", "Q", "H"}
  }

  /** The format is PNG, JPEG or GIF in any mix of cases. */
  predicate FormatAccepted(format: Option<string>) {
    format.Some? && ToUpper(format.value) in {"PNG", "JPEG", "GIF"}
  }

  // The stages as the implementation writes them.

  /** `isContentInvalid`: null or blank. */
  predicate IsContentInvalid(content: Option<string>)
    ensures IsContentInvalid(content) <==> !ContentAccepted(content)
  {
    content.None? || IsBlank(content.value)
  }

  /** `isSizeInvalid`: below the minimum or above the maximum. */
  predicate IsSizeInvalid(size: int32)
    ensures IsSizeInvalid(size) <==> !SizeAccepted(size)
  {
    size < MinImageSize || size > MaxImageSize
  }

  /** `isCorrectionLevelInvalid`: null, or no `ErrorCorrectionLevel` name equals it
      ignoring case. */
  predicate IsCorrectionLevelInvalid(correction: Option<string>)
    ensures IsCorrectionLevelInvalid(correction) <==> !CorrectionAccepted(correction)
  {
    correction.None?
    || (CorrectionNameMatches(correction.value);
        !exists c :: c in CorrectionValues && EqualsIgnoreCase(c.Name(), correction))
  }

  /** `isFormatInvalid`: null, or no `ImageFormat` name equals it ignoring case. */
  predicate IsFormatInvalid(format: Option<string>)
    ensures IsFormatInvalid(format) <==> !FormatAccepted(format)
  {
    format.None?
    || (FormatNameMatches(format.value);
        !exists f :: f in FormatValues && EqualsIgnoreCase(f.Name(), format))
  }

  /** `validate`: returns normally exactly when every stage accepts, and otherwise
      throws the exception of the first stage that rejects. */
  function Validate(content: Option<string>, size: int32, correction: Option<string>,
                    format: Option<string>): (r: Outcome<ErrorKind>)
    ensures r.Pass? <==> ContentAccepted(content) && SizeAccepted(size)
                         && CorrectionAccepted(correction) && FormatAccepted(format)
    ensures r == Fail(InvalidContent) <==> !ContentAccepted(content)
    ensures r == Fail(InvalidImageSize) <==> ContentAccepted(content) && !SizeAccepted(size)
    ensures r == Fail(InvalidCorrectionLevel)
            <==> ContentAccepted(content) && SizeAccepted(size) && !CorrectionAccepted(correction)
    ensures r == Fail(InvalidImageFormat)
            <==> ContentAccepted(content) && SizeAccepted(size) && CorrectionAccepted(correction)
                 && !FormatAccepted(format)
    ensures r.Fail? ==> r.error.IsRequestParameterError() && !r.error.InvalidColor? && !r.error.InvalidMargin?
  {
    if IsContentInvalid(content) then Fail(InvalidContent)
    else if IsSizeInvalid(size) then Fail(InvalidImageSize)
    else if IsCorrectionLevelInvalid(correction) then Fail(InvalidCorrectionLevel)
    else if IsFormatInvalid(format) then Fail(InvalidImageFormat)
    else Pass
  }

  /** Null, empty and whitespace-only content is rejected, including a single space,
      three spaces, a tab and a newline. */
  lemma BlankContentRejected(content: Option<string>, size: int32, correction: Option<string>,
                             format: Option<string>)
    requires content.None? || forall i :: 0 <= i < |content.value| ==> IsWhitespace(content.value[i])
    ensures Validate(content, size, correction, format) == Fail(InvalidContent)
    ensures IsContentInvalid(None) && IsContentInvalid(Some(""))
    ensures IsContentInvalid(Some(" ")) && IsContentInvalid(Some("   "))
    ensures IsContentInvalid(Some("\t")) && IsContentInvalid(Some("\n"))
  {
  }

  /** Any content with one non-whitespace character passes the content stage, whatever
      its length or alphabet: a thousand `a`s and mixed-script text among them. */
  lemma NonBlankContentAccepted(content: string, k: nat)
    requires k < |content| && !IsWhitespace(content[k])
    ensures !IsContentInvalid(Some(content))
    ensures !IsContentInvalid(Some(seq(1000, _ => 'a')))
    ensures !IsContentInvalid(Some("Hello! こんにちは! ❤️ #@$%"))
  {
  }

  /** Both size bounds are inclusive: 150 and 350 pass, 149 and 351 fail. */
  lemma SizeBoundaries()
    ensures !IsSizeInvalid(150) && !IsSizeInvalid(350)
    ensures IsSizeInvalid(149) && IsSizeInvalid(351)
    ensures IsSizeInvalid(0) && IsSizeInvalid(500)
  {
  }

  /** The correction levels pass in either case. */
  lemma CorrectionLevelsAccepted()
    ensures !IsCorrectionLevelInvalid(Some("l")) && !IsCorrectionLevelInvalid(Some("L"))
    ensures !IsCorrectionLevelInvalid(Some("m")) && !IsCorrectionLevelInvalid(Some("M"))
    ensures !IsCorrectionLevelInvalid(Some("q")) && !IsCorrectionLevelInvalid(Some("Q"))
    ensures !IsCorrectionLevelInvalid(Some("h")) && !IsCorrectionLevelInvalid(Some("H"))
  {
    assert ToUpper("l") == "L" && ToUpper("L") == "L";
    assert ToUpper("m") == "M" && ToUpper("M") == "M";
    assert ToUpper("q") == "Q" && ToUpper("Q") == "Q";
    assert ToUpper("h") == "H" && ToUpper("H") == "H";
  }

  /** Near misses of a level name fail, and so does a missing one. */
  lemma CorrectionNearMissesRejected()
    ensures IsCorrectionLevelInvalid(Some("LOW")) && IsCorrectionLevelInvalid(Some("1"))
    ensures IsCorrectionLevelInvalid(Some("A")) && IsCorrectionLevelInvalid(None)
  {
    assert ToUpper("1") == "1";
    assert ToUpper("A") == "A";
  }

  /** The formats pass in either case. */
  lemma FormatsAccepted()
    ensures !IsFormatInvalid(Some("png")) && !IsFormatInvalid(Some("PNG"))
    ensures !IsFormatInvalid(Some("jpeg")) && !IsFormatInvalid(Some("JPEG"))
    ensures !IsFormatInvalid(Some("gif")) && !IsFormatInvalid(Some("GIF"))
  {
    assert ToUpper("png") == "PNG" && ToUpper("PNG") == "PNG";
    assert ToUpper("jpeg") == "JPEG" && ToUpper("JPEG") == "JPEG";
    assert ToUpper("gif") == "GIF" && ToUpper("GIF") == "GIF";
  }

  /** Other codecs, the empty string and a missing format fail. */
  lemma OtherFormatsRejected()
    ensures IsFormatInvalid(Some("")) && IsFormatInvalid(Some("bmp"))
    ensures IsFormatInvalid(Some("webp")) && IsFormatInvalid(None)
  {
    assert ToUpper("bmp") == "BMP";
  }
}

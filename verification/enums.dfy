/** The closed value sets the request is checked against: the repository's own
    `ImageFormat` enum and ZXing's `ErrorCorrectionLevel` enum. `FormatValues` and
    `CorrectionValues` list them in declaration order, which is the iteration order
    of `EnumSet.allOf`. */
module Enums {

  import opened Wrappers
  import opened JavaText

  /** `ImageFormat`: each constant carries the media type it was constructed with. */
  datatype ImageFormat = PNG | JPEG | GIF {

    /** `Enum.name()`. */
    function Name(): string {
      match this
      case PNG => "PNG"
      case JPEG => "JPEG"
      case GIF => "GIF"
    }

    /** `getMediaType()`: the media type is `image/` followed by the lower-cased name. */
    function MediaType(): (m: string)
      ensures m == "image/" + ToLower(Name())
    {
      match this
      case PNG => assert ToLower("PNG") == "png"; "image/png"
      case JPEG => assert ToLower("JPEG") == "jpeg"; "image/jpeg"
      case GIF => assert ToLower("GIF") == "gif"; "image/gif"
    }
  }

  const FormatValues: seq<ImageFormat> := [PNG, JPEG, GIF]

  /** ZXing's `ErrorCorrectionLevel`, weakest to strongest. */
  datatype ErrorCorrectionLevel = L | M | Q | H {

    /** `Enum.name()`. */
    function Name(): string {
      match this
      case L => "L"
      case M => "M"
      case Q => "Q"
      case H => "H"
    }
  }

  const CorrectionValues: seq<ErrorCorrectionLevel> := [L, M, Q, H]

  /** The supported formats are PNG, JPEG and GIF, in that order, each once. */
  lemma FormatValuesExact()
    ensures forall f: ImageFormat :: f in FormatValues
    ensures |FormatValues| == 3 && FormatValues[0] == PNG && FormatValues[1] == JPEG && FormatValues[2] == GIF
    ensures forall i, j :: 0 <= i < j < |FormatValues| ==> FormatValues[i] != FormatValues[j]
  {
    forall f: ImageFormat ensures f in FormatValues {
      match f
      case PNG => assert FormatValues[0] == f;
      case JPEG => assert FormatValues[1] == f;
      case GIF => assert FormatValues[2] == f;
    }
  }

  /** The three media types are `image/png`, `image/jpeg` and `image/gif`, and no two
      formats share one. */
  lemma MediaTypeInjective(f: ImageFormat, g: ImageFormat)
    ensures PNG.MediaType() == "image/png"
    ensures JPEG.MediaType() == "image/jpeg"
    ensures GIF.MediaType() == "image/gif"
    ensures f.MediaType() == g.MediaType() ==> f == g
  {
  }

  /** Format names are upper-case and distinct. */
  lemma FormatNamesUpperAndDistinct(f: ImageFormat, g: ImageFormat)
    ensures ToUpper(f.Name()) == f.Name()
    ensures f.Name() == g.Name() ==> f == g
  {
  }

  /** Every level occurs once in `CorrectionValues`, in the order L, M, Q, H; names are
      upper-case and distinct. */
  lemma CorrectionValuesExact(c: ErrorCorrectionLevel, d: ErrorCorrectionLevel)
    ensures c in CorrectionValues
    ensures CorrectionValues == [L, M, Q, H]
    ensures ToUpper(c.Name()) == c.Name()
    ensures c.Name() == d.Name() ==> c == d
  {
  }

  /** Matching a string case-insensitively against the format names, as the validators'
      stream does, is testing its upper case against PNG, JPEG and GIF. */
  lemma FormatNameMatches(s: string)
    ensures (exists f :: f in FormatValues && EqualsIgnoreCase(f.Name(), Some(s)))
            <==> ToUpper(s) in {"PNG", "JPEG", "GIF"}
  {
    forall f: ImageFormat
      ensures EqualsIgnoreCase(f.Name(), Some(s)) <==> ToUpper(s) == f.Name()
    {
      FormatNamesUpperAndDistinct(f, f);
    }
    FormatValuesExact();
    var u := ToUpper(s);
    if u == "PNG" {
      assert PNG in FormatValues && EqualsIgnoreCase(PNG.Name(), Some(s));
    } else if u == "JPEG" {
      assert JPEG in FormatValues && EqualsIgnoreCase(JPEG.Name(), Some(s));
    } else if u == "GIF" {
      assert GIF in FormatValues && EqualsIgnoreCase(GIF.Name(), Some(s));
    }
  }

  /** Matching a string case-insensitively against the level names is testing its
      upper case against L, M, Q and H. */
  lemma CorrectionNameMatches(s: string)
    ensures (exists c :: c in CorrectionValues && EqualsIgnoreCase(c.Name(), Some(s)))
            <==> ToUpper(s) in {"L", "M", "Q", "H"}
  {
    forall c: ErrorCorrectionLevel
      ensures EqualsIgnoreCase(c.Name(), Some(s)) <==> ToUpper(s) == c.Name()
    {
      CorrectionValuesExact(c, c);
    }
    var u := ToUpper(s);
    if u == "L" {
      assert L in CorrectionValues && EqualsIgnoreCase(L.Name(), Some(s));
    } else if u == "M" {
      assert M in CorrectionValues && EqualsIgnoreCase(M.Name(), Some(s));
    } else if u == "Q" {
      assert Q in CorrectionValues && EqualsIgnoreCase(Q.Name(), Some(s));
    } else if u == "H" {
      assert H in CorrectionValues && EqualsIgnoreCase(H.Name(), Some(s));
    }
  }
}

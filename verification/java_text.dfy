/** The few `java.lang.String` operations the validators and the service rely on:
    `isBlank`, `toUpperCase` and `equalsIgnoreCase`. Case conversion is modelled on
    ASCII letters only; every other character is its own upper and lower case. */
module JavaText {

  import opened Wrappers

  /** `Character.isWhitespace`: the ASCII controls TAB..CR and FS..US, the space, and
      the Unicode space, line and paragraph separators except the three no-break
      spaces U+00A0, U+2007 and U+202F. */
  predicate IsWhitespace(c: char)
    ensures c == ' ' || c == '\t' || c == '\n' || c == '\r' ==> IsWhitespace(c)
    ensures c == '\U{A0}' || c == '\U{2007}' || c == '\U{202F}' ==> !IsWhitespace(c)
    ensures IsAsciiLower(c) || IsAsciiUpper(c) || ('0' <= c <= '9') ==> !IsWhitespace(c)
  {
    || ('\t' <= c <= '\r')
    || ('\U{1C}' <= c <= ' ')
    || c == '\U{1680}'
    || ('\U{2000}' <= c <= '\U{2006}')
    || ('\U{2008}' <= c <= '\U{200A}')
    || c == '\U{2028}'
    || c == '\U{2029}'
    || c == '\U{205F}'
    || c == '\U{3000}'
  }

  /** The scan behind `String.isBlank`: the first index at or after `from` that holds a
      non-whitespace character, or `|s|` when there is none. */
  function IndexOfNonWhitespace(s: string, from: nat): (k: nat)
    requires from <= |s|
    ensures from <= k <= |s|
    ensures forall i :: from <= i < k ==> IsWhitespace(s[i])
    ensures k < |s| ==> !IsWhitespace(s[k])
    decreases |s| - from
  {
    if from == |s| || !IsWhitespace(s[from]) then from
    else IndexOfNonWhitespace(s, from + 1)
  }

  /** `String.isBlank`: the scan for a non-whitespace character runs off the end. */
  predicate IsBlank(s: string)
    ensures IsBlank(s) <==> forall i :: 0 <= i < |s| ==> IsWhitespace(s[i])
  {
    IndexOfNonWhitespace(s, 0) == |s|
  }

  predicate IsAsciiLower(c: char) {
    'a' <= c <= 'z'
  }

  predicate IsAsciiUpper(c: char) {
    'A' <= c <= 'Z'
  }

  /** `Character.toUpperCase`, restricted to ASCII. */
  function UpperChar(c: char): (u: char)
    ensures !IsAsciiLower(u)
    ensures IsAsciiLower(c) ==> IsAsciiUpper(u) && LowerChar(u) == c
    ensures !IsAsciiLower(c) ==> u == c
  {
    if IsAsciiLower(c) then (c as int - 32) as char else c
  }

  /** `Character.toLowerCase`, restricted to ASCII. */
  function LowerChar(c: char): (l: char)
    ensures !IsAsciiUpper(l)
    ensures IsAsciiUpper(c) ==> IsAsciiLower(l) && (l as int - 32) as char == c
    ensures !IsAsciiUpper(c) ==> l == c
  {
    if IsAsciiUpper(c) then (c as int + 32) as char else c
  }

  /** `String.toUpperCase`: the same characters, each replaced by its upper case. */
  function ToUpper(s: string): (r: string)
    ensures |r| == |s|
    ensures forall i :: 0 <= i < |s| ==> r[i] == UpperChar(s[i])
  {
    if s == [] then [] else [UpperChar(s[0])] + ToUpper(s[1..])
  }

  /** `String.toLowerCase`: the same characters, each replaced by its lower case. */
  function ToLower(s: string): (r: string)
    ensures |r| == |s|
    ensures forall i :: 0 <= i < |s| ==> r[i] == LowerChar(s[i])
  {
    if s == [] then [] else [LowerChar(s[0])] + ToLower(s[1..])
  }

  /** One step of `String.regionMatches(true, ...)`: equal characters, or equal after
      upper-casing, or equal after upper-casing and then lower-casing. */
  predicate CharEqualsIgnoreCase(a: char, b: char) {
    a == b || UpperChar(a) == UpperChar(b) || LowerChar(UpperChar(a)) == LowerChar(UpperChar(b))
  }

  /** `String.regionMatches(true, 0, b, 0, |a|)` on two strings of the same length. */
  predicate RegionMatchesIgnoreCase(a: string, b: string)
    requires |a| == |b|
  {
    a == [] || (CharEqualsIgnoreCase(a[0], b[0]) && RegionMatchesIgnoreCase(a[1..], b[1..]))
  }

  /** `a.equalsIgnoreCase(b)`: `b` is not null, has the length of `a`, and matches it
      character by character, ignoring case. */
  predicate EqualsIgnoreCase(a: string, b: Option<string>)
    ensures EqualsIgnoreCase(a, b) <==> b.Some? && ToUpper(a) == ToUpper(b.value)
  {
    b.Some? && |a| == |b.value|
    && (RegionMatchesIffSameUpper(a, b.value); RegionMatchesIgnoreCase(a, b.value))
  }

  /** Two characters are equal ignoring case exactly when their upper cases agree. */
  lemma CharEqualsIgnoreCaseIffSameUpper(a: char, b: char)
    ensures CharEqualsIgnoreCase(a, b) <==> UpperChar(a) == UpperChar(b)
  {
  }

  /** Case-insensitive region matching is equality of the upper-cased strings. */
  lemma {:induction false} RegionMatchesIffSameUpper(a: string, b: string)
    requires |a| == |b|
    ensures RegionMatchesIgnoreCase(a, b) <==> ToUpper(a) == ToUpper(b)
  {
    if a != [] {
      CharEqualsIgnoreCaseIffSameUpper(a[0], b[0]);
      RegionMatchesIffSameUpper(a[1..], b[1..]);
      assert ToUpper(a) == [UpperChar(a[0])] + ToUpper(a[1..]);
      assert ToUpper(b) == [UpperChar(b[0])] + ToUpper(b[1..]);
      if ToUpper(a) == ToUpper(b) {
        assert ToUpper(a)[1..] == ToUpper(a[1..]);
        assert ToUpper(b)[1..] == ToUpper(b[1..]);
      }
    }
  }
}

/**
 * Shared value types (media types, binary content) and the few .NET string
 * operations the core relies on: white-space tests, NUL removal and the
 * decimal formatting used in interpolated messages.
 */
module Common {

  import opened Wrappers

  /** The media types a document or a binary payload can carry. */
  datatype MediaType =
    | ImageJpeg
    | ImagePng
    | ImageGif
    | ImageWebp
    | ImageSvg
    | ImageTiff
    | ImageBmp
    | TextPlain
    | TextCsv
    | AudioAac
    | AudioMp3
    | AudioOgg
    | AudioWav
    | ApplicationPdf
    | ApplicationJson
    | ApplicationXml
    | ApplicationRtf
    | ApplicationZip
    | ApplicationVndMsExcel
    | ApplicationVndOpenXmlFormatsOfficeDocumentSpreadsheetMlSheet
    | Unknown

  /** Raw bytes, opaque to the core. */
  type Bytes = seq<bv8>

  /** A binary payload tagged with its media type. */
  datatype BinaryContent = BinaryContent(data: Bytes, mediaType: MediaType)

  /** The characters `char.IsWhiteSpace` accepts. */
  predicate IsWhiteSpace(c: char)
  {
    || ('\U{0009}' <= c <= '\U{000D}')
    || c == '\U{0020}'
    || c == '\U{0085}'
    || c == '\U{00A0}'
    || c == '\U{1680}'
    || ('\U{2000}' <= c <= '\U{200A}')
    || c == '\U{2028}'
    || c == '\U{2029}'
    || c == '\U{202F}'
    || c == '\U{205F}'
    || c == '\U{3000}'
  }

  /** `string.IsNullOrWhiteSpace` for a present string; also "empty after `Trim()`". */
  predicate IsBlank(s: string)
  {
    forall i :: 0 <= i < |s| ==> IsWhiteSpace(s[i])
  }

  /** `string.IsNullOrWhiteSpace` on a nullable string. */
  predicate IsNullOrWhiteSpace(s: Option<string>)
  {
    s.None? || IsBlank(s.value)
  }

  /** `string.IsNullOrEmpty` on a nullable string. */
  predicate IsNullOrEmpty(s: Option<string>)
  {
    s.None? || s.value == ""
  }

  /** `s.Replace("\0", "")`: every NUL character removed, everything else kept in order. */
  function RemoveNul(s: string): (r: string)
    ensures forall i :: 0 <= i < |r| ==> r[i] != '\0'
    ensures |r| <= |s|
    ensures (forall i :: 0 <= i < |s| ==> s[i] != '\0') ==> r == s
  {
    if s == [] then []
    else if s[0] == '\0' then RemoveNul(s[1..])
    else [s[0]] + RemoveNul(s[1..])
  }

  function DigitChar(d: nat): char
    requires d < 10
  {
    "0123456789"[d]
  }

  /** The decimal text of a natural number, as string interpolation prints it. */
  function NatToString(n: nat): (r: string)
    ensures |r| >= 1
    ensures forall i :: 0 <= i < |r| ==> '0' <= r[i] <= '9'
    ensures |r| > 1 ==> r[0] != '0'
    decreases n
  {
    if n < 10 then [DigitChar(n)] else NatToString(n / 10) + [DigitChar(n % 10)]
  }

  /** The decimal text of an integer, with a leading '-' when negative. */
  function IntToString(i: int): (r: string)
    ensures |r| >= 1
    ensures i < 0 <==> r[0] == '-'
  {
    if i < 0 then "-" + NatToString(-i) else NatToString(i)
  }

  /** The number a string of decimal digits denotes. */
  function DecimalValue(s: string): nat
    requires forall i :: 0 <= i < |s| ==> '0' <= s[i] <= '9'
  {
    if s == [] then 0 else DecimalValue(s[..|s| - 1]) * 10 + (s[|s| - 1] as int - '0' as int)
  }

  /** Reading back the printed number gives the number: the formatting loses nothing. */
  lemma {:induction false} NatToStringRoundTrip(n: nat)
    ensures DecimalValue(NatToString(n)) == n
    decreases n
  {
    DigitValue(n % 10);
    if n >= 10 {
      NatToStringRoundTrip(n / 10);
      var s := NatToString(n);
      assert s[..|s| - 1] == NatToString(n / 10);
    }
  }

  /** Distinct integers print differently. */
  lemma IntToStringInjective(i: int, j: int)
    requires IntToString(i) == IntToString(j)
    ensures i == j
  {
    var a := if i < 0 then -i else i;
    var b := if j < 0 then -j else j;
    if i < 0 {
      assert IntToString(i)[1..] == NatToString(a);
      assert IntToString(j)[1..] == NatToString(b);
    }
    NatToStringRoundTrip(a);
    NatToStringRoundTrip(b);
  }

  /** The digit character of `d` denotes `d`. */
  lemma DigitValue(d: nat)
    requires d < 10
    ensures DigitChar(d) as int - '0' as int == d
  {
  }
}

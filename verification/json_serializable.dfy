/**
 * The string handling of the JSON base class: trimming a model answer down
 * to its outermost braces before deserialising it, the blank and exception
 * guards of `FromJson`, and the newline normalisation of `ToJson`. The JSON
 * (de)serialiser itself is a parameter.
 */
module JsonSerializable {

  import opened Wrappers
  import opened Common

  /** `s.IndexOf(c)`: the first position of `c` in `s`, or -1. */
  function IndexOf(s: string, c: char): (r: int)
    ensures -1 <= r < |s|
    ensures r >= 0 ==> s[r] == c
    ensures r >= 0 ==> forall i :: 0 <= i < r ==> s[i] != c
    ensures r == -1 ==> forall i :: 0 <= i < |s| ==> s[i] != c
  {
    if s == [] then -1
    else if s[0] == c then 0
    else
      var k := IndexOf(s[1..], c);
      if k < 0 then -1 else k + 1
  }

  /** `s.LastIndexOf(c)`: the last position of `c` in `s`, or -1. */
  function LastIndexOf(s: string, c: char): (r: int)
    ensures -1 <= r < |s|
    ensures r >= 0 ==> s[r] == c
    ensures r >= 0 ==> forall i :: r < i < |s| ==> s[i] != c
    ensures r == -1 ==> forall i :: 0 <= i < |s| ==> s[i] != c
  {
    if s == [] then -1
    else if s[|s| - 1] == c then |s| - 1
    else LastIndexOf(s[..|s| - 1], c)
  }

  /**
   * `SanitizeJson`: the text from the first '{' to the last '}' inclusive, the
   * text itself when either brace is missing, and the exception of the C#
   * range operator when the last '}' lies more than one place before the
   * first '{'.
   */
  function SanitizeJson(text: string): (r: Result<string>)
    ensures (forall i :: 0 <= i < |text| ==> text[i] != '{') ==> r == Ok(text)
    ensures (forall i :: 0 <= i < |text| ==> text[i] != '}') ==> r == Ok(text)
    ensures r.Ok? ==> |r.value| <= |text|
    ensures r.Err? <==> IndexOf(text, '{') >= 0 && LastIndexOf(text, '}') >= 0
                        && LastIndexOf(text, '}') + 1 < IndexOf(text, '{')
  {
    var start := IndexOf(text, '{');
    var end := LastIndexOf(text, '}');
    if start < 0 || end < 0 then Ok(text)
    else if end + 1 < start then Err(ArgumentOutOfRange("range end precedes range start"))
    else Ok(text[start..end + 1])
  }

  /** When some '{' precedes some '}', the result is the span from the first '{' to the last '}'. */
  lemma SanitizeJsonKeepsOutermostBraces(text: string, i: nat, j: nat)
    requires i < j < |text| && text[i] == '{' && text[j] == '}'
    ensures exists a, b ::
      && 0 <= a < b <= |text|
      && SanitizeJson(text) == Ok(text[a..b])
      && text[a] == '{' && text[b - 1] == '}'
      && (forall k :: 0 <= k < a ==> text[k] != '{')
      && (forall k :: b <= k < |text| ==> text[k] != '}')
  {
    var a := IndexOf(text, '{');
    var e := LastIndexOf(text, '}');
    assert 0 <= a <= i && j <= e;
    assert text[a..e + 1] == text[a..e + 1];
  }

  /** A string that opens with '{' and closes with '}' is its own sanitised form. */
  lemma {:induction false} SanitizeJsonOfBracedText(s: string)
    requires |s| >= 2 && s[0] == '{' && s[|s| - 1] == '}'
    ensures SanitizeJson(s) == Ok(s)
  {
    assert IndexOf(s, '{') == 0;
    assert LastIndexOf(s, '}') == |s| - 1;
    assert s[0..|s|] == s;
  }

  /** Sanitising twice is sanitising once, wherever the first pass succeeds. */
  lemma {:induction false} SanitizeJsonIdempotent(text: string)
    requires SanitizeJson(text).Ok?
    ensures SanitizeJson(SanitizeJson(text).value) == SanitizeJson(text)
  {
    var start := IndexOf(text, '{');
    var end := LastIndexOf(text, '}');
    if start >= 0 && end >= 0 {
      var s := text[start..end + 1];
      if start <= end {
        assert s[0] == '{' && s[|s| - 1] == '}';
        if |s| == 1 {
          assert false;
        }
        SanitizeJsonOfBracedText(s);
      } else {
        assert s == [];
      }
    }
  }

  /**
   * `FromJson`: nothing for a missing or blank text, and nothing when slicing
   * or deserialising fails; otherwise what the deserialiser makes of the
   * sanitised text.
   */
  function FromJson<T>(json: Option<string>, deserialize: string -> Option<T>): (r: Option<T>)
    ensures IsNullOrWhiteSpace(json) ==> r == None
    ensures json.Some? && SanitizeJson(json.value).Err? ==> r == None
    ensures !IsNullOrWhiteSpace(json) && SanitizeJson(json.value).Ok? ==>
              r == deserialize(SanitizeJson(json.value).value)
    ensures r.Some? ==> json.Some? && !IsBlank(json.value) && SanitizeJson(json.value).Ok?
                        && r == deserialize(SanitizeJson(json.value).value)
  {
    if IsNullOrWhiteSpace(json) then None
    else
      match SanitizeJson(json.value)
      case Err(_) => None
      case Ok(s) => deserialize(s)
  }

  /** `Replace("\r\n", "\n")`, scanning left to right. */
  function ReplaceCrLf(s: string): (r: string)
    ensures |r| <= |s|
  {
    if s == [] then []
    else if |s| >= 2 && s[0] == '\r' && s[1] == '\n' then "\n" + ReplaceCrLf(s[2..])
    else [s[0]] + ReplaceCrLf(s[1..])
  }

  lemma {:induction false} ReplaceCrLfWithoutCr(s: string)
    requires forall i :: 0 <= i < |s| ==> s[i] != '\r'
    ensures ReplaceCrLf(s) == s
  {
    if s != [] {
      ReplaceCrLfWithoutCr(s[1..]);
    }
  }

  /** `Replace("\r", "\n")`. */
  function ReplaceCr(s: string): (r: string)
    ensures |r| == |s|
    ensures forall i :: 0 <= i < |r| ==> r[i] != '\r'
    ensures forall i :: 0 <= i < |s| ==> r[i] == (if s[i] == '\r' then '\n' else s[i])
  {
    if s == [] then [] else [if s[0] == '\r' then '\n' else s[0]] + ReplaceCr(s[1..])
  }

  /** `ToJson`: the serialiser's output with every "\r\n" and every lone '\r' turned into '\n'. */
  function ToJson(serialized: string): (r: string)
    ensures forall i :: 0 <= i < |r| ==> r[i] != '\r'
    ensures |r| <= |serialized|
  {
    ReplaceCr(ReplaceCrLf(serialized))
  }

  /** Normalising newlines leaves text without carriage returns unchanged, so it is idempotent. */
  lemma ToJsonIdempotent(serialized: string)
    ensures ToJson(ToJson(serialized)) == ToJson(serialized)
  {
    var once := ToJson(serialized);
    ReplaceCrLfWithoutCr(once);
    assert ReplaceCr(once) == once;
  }

  /** A Windows line break becomes a single '\n'. */
  lemma ToJsonCollapsesCrLf(a: string, b: string)
    ensures ToJson(a + ("\r\n" + b)) == ToJson(a) + ("\n" + ToJson(b))
  {
    CrLfSplit(a, b);
    var x := ReplaceCrLf(a);
    var y := ReplaceCrLf(b);
    ReplaceCrConcat(x, "\n" + y);
    ReplaceCrConcat("\n", y);
    assert ReplaceCr("\n") == "\n";
  }

  lemma {:induction false} ReplaceCrConcat(x: string, y: string)
    ensures ReplaceCr(x + y) == ReplaceCr(x) + ReplaceCr(y)
  {
    var l := ReplaceCr(x + y);
    var rr := ReplaceCr(x) + ReplaceCr(y);
    assert |l| == |rr|;
    forall i | 0 <= i < |l| ensures l[i] == rr[i] {
      if i < |x| {
        assert (x + y)[i] == x[i];
      } else {
        assert (x + y)[i] == y[i - |x|];
      }
    }
  }

  /** One step of `ReplaceCrLf` on a text that starts with a kept character. */
  lemma KeepStep(c: char, t: string)
    requires !(c == '\r' && |t| >= 1 && t[0] == '\n')
    ensures ReplaceCrLf([c] + t) == [c] + ReplaceCrLf(t)
  {
    assert ([c] + t)[1..] == t;
  }

  /** One step of `ReplaceCrLf` on a text that starts with "\r\n". */
  lemma PairStep(t: string)
    ensures ReplaceCrLf("\r\n" + t) == "\n" + ReplaceCrLf(t)
  {
    assert ("\r\n" + t)[2..] == t;
  }

  /** Concatenation is associative. */
  lemma Regroup(x: string, y: string, z: string)
    ensures x + (y + z) == (x + y) + z
  {
  }

  lemma {:induction false} CrLfSplit(a: string, b: string)
    ensures ReplaceCrLf(a + ("\r\n" + b)) == ReplaceCrLf(a) + ("\n" + ReplaceCrLf(b))
    decreases |a|
  {
    var crlf := "\r\n" + b;
    var tail := "\n" + ReplaceCrLf(b);
    if a == [] {
      assert a + crlf == crlf;
      PairStep(b);
    } else if |a| >= 2 && a[0] == '\r' && a[1] == '\n' {
      var a2 := a[2..];
      assert a + crlf == "\r\n" + (a2 + crlf);
      assert a == "\r\n" + a2;
      PairStep(a2 + crlf);
      PairStep(a2);
      CrLfSplit(a2, b);
      Regroup("\n", ReplaceCrLf(a2), tail);
    } else {
      var a1 := a[1..];
      assert a + crlf == [a[0]] + (a1 + crlf);
      assert a == [a[0]] + a1;
      KeepStep(a[0], a1 + crlf);
      KeepStep(a[0], a1);
      CrLfSplit(a1, b);
      Regroup([a[0]], ReplaceCrLf(a1), tail);
    }
  }
}

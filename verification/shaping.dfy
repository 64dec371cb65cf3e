/** The pure content-shaping helpers of `Approvals`: extension trimming,
    the default scrubber, header joining and the `"{key} => {value}"` entry
    format with .NET's decimal rendering of an integer key. */
module Shaping {
  import opened Wrappers

  /** A run of `n` dots. */
  function Dots(n: nat): (s: string)
    ensures |s| == n && forall i :: 0 <= i < n ==> s[i] == '.'
  {
    if n == 0 then [] else "." + Dots(n - 1)
  }

  /** string.TrimStart('.'): drop every leading dot and nothing else. */
  function TrimLeadingDots(s: string): (r: string)
    ensures |r| <= |s| && r == s[|s| - |r|..]
    ensures forall i :: 0 <= i < |s| - |r| ==> s[i] == '.'
    ensures r == [] || r[0] != '.'
  {
    if |s| > 0 && s[0] == '.' then TrimLeadingDots(s[1..]) else s
  }

  /** One leading dot more or less makes no difference to trimming. */
  lemma TrimDropsDot(x: string)
    ensures TrimLeadingDots("." + x) == TrimLeadingDots(x)
  {
    assert ("." + x)[1..] == x;
  }

  /** However many dots precede an extension, trimming yields the same result. */
  lemma {:induction false} TrimIgnoresDotCount(n: nat, e: string)
    ensures TrimLeadingDots(Dots(n) + e) == TrimLeadingDots(e)
  {
    if n > 0 {
      DotsStep(n, e);
      TrimDropsDot(Dots(n - 1) + e);
      TrimIgnoresDotCount(n - 1, e);
    } else {
      assert Dots(n) + e == e;
    }
  }

  lemma DotsStep(n: nat, e: string)
    requires n > 0
    ensures Dots(n) + e == "." + (Dots(n - 1) + e)
  {
    assert Dots(n) == "." + Dots(n - 1);
  }

  /** Trimming is idempotent, and keeps an extension without a leading dot. */
  lemma TrimIsIdempotent(s: string)
    ensures TrimLeadingDots(TrimLeadingDots(s)) == TrimLeadingDots(s)
    ensures s == [] || s[0] != '.' ==> TrimLeadingDots(s) == s
  {
  }

  /** ScrubberUtils.NO_SCRUBBER: leaves the text as it is. */
  function NoScrubber(text: string): string {
    text
  }

  /** A null scrubber is replaced by NO_SCRUBBER before it is applied. */
  function Scrubbed(scrubber: Option<string -> string>, text: string): (r: string)
    ensures scrubber.None? ==> r == text
    ensures scrubber.Some? ==> r == scrubber.value(text)
  {
    scrubber.GetOr(NoScrubber)(text)
  }

  /** The header variants of VerifyAll: header, a blank line, then the body. */
  function WithHeader(header: string, body: string): (r: string)
    ensures |r| == |header| + 2 + |body|
    ensures r[..|header|] == header
    ensures r[|header|..|header| + 2] == "\n\n"
    ensures r[|header| + 2..] == body
  {
    header + "\n\n" + body
  }

  predicate IsDigit(c: char) {
    '0' <= c <= '9'
  }

  predicate AllDigits(s: string) {
    forall i :: 0 <= i < |s| ==> IsDigit(s[i])
  }

  function DigitChar(d: nat): (c: char)
    requires d < 10
    ensures IsDigit(c) && c as int - '0' as int == d
  {
    (d + '0' as int) as char
  }

  /** Decimal text of a natural number, most significant digit first, without
      leading zeros. */
  function NatText(n: nat): (s: string)
    ensures |s| > 0 && AllDigits(s)
    ensures n > 0 ==> s[0] != '0'
  {
    if n < 10 then [DigitChar(n)] else NatText(n / 10) + [DigitChar(n % 10)]
  }

  /** Int32.ToString() under the invariant culture: an optional '-' then digits. */
  function IntText(k: int): (s: string)
    ensures |s| > 0
    ensures forall i :: 0 <= i < |s| ==> s[i] == '-' || IsDigit(s[i])
  {
    if k < 0 then "-" + NatText(-k) else NatText(k)
  }

  /** The value of a string of decimal digits. */
  function DigitsValue(s: string): nat
    requires AllDigits(s)
  {
    if |s| == 0 then 0
    else DigitsValue(s[..|s| - 1]) * 10 + (s[|s| - 1] as int - '0' as int)
  }

  /** Reads back the decimal text of an integer; the inverse of IntText. */
  function ParseInt(s: string): Option<int> {
    if |s| > 1 && s[0] == '-' && AllDigits(s[1..]) then Some(-(DigitsValue(s[1..]) as int))
    else if |s| > 0 && AllDigits(s) then Some(DigitsValue(s))
    else None
  }

  lemma {:induction false} NatTextRoundTrip(n: nat)
    ensures DigitsValue(NatText(n)) == n
  {
    if n >= 10 {
      var s := NatText(n);
      assert s[..|s| - 1] == NatText(n / 10);
      NatTextRoundTrip(n / 10);
    }
  }

  /** Round trip: the rendered key reads back as the key. */
  lemma IntTextRoundTrip(k: int)
    ensures ParseInt(IntText(k)) == Some(k)
  {
    if k < 0 {
      assert IntText(k)[1..] == NatText(-k);
      NatTextRoundTrip(-k);
    } else {
      NatTextRoundTrip(k);
    }
  }

  /** The default dictionary entry format `"{key} => {value}"`. */
  function ArrowFormat(k: int, v: string): (line: string)
    ensures |line| == |IntText(k)| + 4 + |v|
    ensures line[..|IntText(k)|] == IntText(k)
    ensures line[|IntText(k)|..] == " => " + v
  {
    IntText(k) + " => " + v
  }

  /** The first space of an entry line is the one right after the key. */
  lemma SpaceEndsKey(k: int, v: string)
    ensures ArrowFormat(k, v)[|IntText(k)|] == ' '
    ensures forall i :: 0 <= i < |IntText(k)| ==> ArrowFormat(k, v)[i] != ' '
  {
    var line := ArrowFormat(k, v);
    forall i | 0 <= i < |IntText(k)|
      ensures line[i] != ' '
    {
      assert line[i] == line[..|IntText(k)|][i] == IntText(k)[i];
    }
  }

  /** An entry line determines its key and value: the key text holds no space,
      so the first space of the line ends it. */
  lemma ArrowFormatInjective(k1: int, v1: string, k2: int, v2: string)
    requires ArrowFormat(k1, v1) == ArrowFormat(k2, v2)
    ensures k1 == k2 && v1 == v2
  {
    var t1, t2 := IntText(k1), IntText(k2);
    var line := ArrowFormat(k1, v1);
    SpaceEndsKey(k1, v1);
    SpaceEndsKey(k2, v2);
    assert |t1| == |t2|;
    assert t1 == line[..|t1|] == t2;
    IntTextRoundTrip(k1);
    IntTextRoundTrip(k2);
    assert " => " + v1 == " => " + v2;
    assert v1 == (" => " + v1)[4..];
  }
}

/** The two JavaScript number/text conversions the ledger relies on, on whole
    numbers: `Number.prototype.toString()` (radix 10) and `parseFloat`. */
module Numbers {
  import opened Wrappers

  predicate IsDigit(c: char) {
    '0' <= c <= '9'
  }

  predicate AllDigits(s: string) {
    forall i :: 0 <= i < |s| ==> IsDigit(s[i])
  }

  function DigitChar(d: nat): (c: char)
    requires d < 10
    ensures IsDigit(c) && c as int - '0' as int == d
  {
    (d + '0' as int) as char
  }

  /** Decimal digits of `n`, most significant first, with no leading zero. */
  function NatToString(n: nat): (s: string)
    ensures |s| >= 1 && AllDigits(s)
    ensures |s| > 1 ==> s[0] != '0'
  {
    if n < 10 then [DigitChar(n)] else NatToString(n / 10) + [DigitChar(n % 10)]
  }

  /** `n.toString()` for a whole number. */
  function NumberToString(n: int): string {
    if n < 0 then "-" + NatToString(-n) else NatToString(n)
  }

  /** The value of a run of decimal digits. */
  function DigitsValue(s: string): nat
    requires AllDigits(s)
  {
    if s == [] then 0 else DigitsValue(s[..|s| - 1]) * 10 + (s[|s| - 1] as int - '0' as int)
  }

  /** The longest prefix of `s` made of digits. */
  function LeadingDigits(s: string): (d: string)
    ensures d <= s && AllDigits(d)
    ensures |d| < |s| ==> !IsDigit(s[|d|])
  {
    if s == [] || !IsDigit(s[0]) then [] else [s[0]] + LeadingDigits(s[1..])
  }

  /** The white space `parseFloat` skips before the number: tab, vertical
      tab, form feed, the byte-order mark, every space separator (category
      Zs) and the four line terminators. */
  predicate IsSpace(c: char) {
    c == '\t' || c == '\U{000B}' || c == '\U{000C}' || c == '\U{FEFF}'
    || c == ' ' || c == '\U{00A0}' || c == '\U{1680}' || ('\U{2000}' <= c <= '\U{200A}')
    || c == '\U{202F}' || c == '\U{205F}' || c == '\U{3000}'
    || c == '\n' || c == '\r' || c == '\U{2028}' || c == '\U{2029}'
  }

  function TrimStart(s: string): (t: string)
    ensures |t| <= |s| && t == s[|s| - |t|..]
    ensures |t| > 0 ==> !IsSpace(t[0])
  {
    if s != [] && IsSpace(s[0]) then TrimStart(s[1..]) else s
  }

  /** `parseFloat(s)` where every number is whole: leading white space is
      skipped, an optional sign is read, then the longest run of digits; the
      rest of the text, a fraction or an exponent included, is ignored.
      `None` is NaN (no digit at all); `Infinity` is not read. */
  function ParseFloat(s: string): (r: Option<int>)
    ensures r.None? <==> LeadingDigits(Unsigned(TrimStart(s))) == []
  {
    var t := TrimStart(s);
    var d := LeadingDigits(Unsigned(t));
    if d == [] then None
    else if |t| > 0 && t[0] == '-' then Some(-(DigitsValue(d) as int))
    else Some(DigitsValue(d))
  }

  /** The text after an optional leading sign. */
  function Unsigned(t: string): string {
    if |t| > 0 && (t[0] == '-' || t[0] == '+') then t[1..] else t
  }

  /** `parseFloat(s) || 0`: NaN becomes 0 (and 0 stays 0). */
  function ParseFloatOrZero(s: string): int {
    ParseFloat(s).GetOr(0)
  }

  lemma {:induction false} DigitsValueOfNatToString(n: nat)
    ensures DigitsValue(NatToString(n)) == n
  {
    if n >= 10 {
      var s := NatToString(n);
      assert s[..|s| - 1] == NatToString(n / 10);
      DigitsValueOfNatToString(n / 10);
    }
  }

  lemma {:induction false} LeadingDigitsOfDigits(s: string)
    requires AllDigits(s)
    ensures LeadingDigits(s) == s
  {
    if s != [] {
      LeadingDigitsOfDigits(s[1..]);
    }
  }

  /** Reading back what `toString` wrote gives the number again — the round
      trip the encrypted amount goes through. */
  lemma ParseFloatOfNumberToString(n: int)
    ensures ParseFloat(NumberToString(n)) == Some(n)
    ensures ParseFloatOrZero(NumberToString(n)) == n
  {
    var m: nat := if n < 0 then -n else n;
    var u := NatToString(m);
    var s := NumberToString(n);
    LeadingDigitsOfDigits(u);
    DigitsValueOfNatToString(m);
    if n < 0 {
      assert s == "-" + u;
      assert !IsSpace(s[0]);
      assert TrimStart(s) == s;
      assert Unsigned(s) == u;
    } else {
      assert s == u;
      assert !IsSpace(s[0]);
      assert TrimStart(s) == s;
      assert Unsigned(s) == u;
    }
  }

  /** A text with no digit after its white space and sign reads as NaN, so the
      `|| 0` fallback gives 0: this is the fate of the '' and '***' markers. */
  lemma ParseFloatOfMarkers()
    ensures ParseFloat("") == None && ParseFloat("***") == None
    ensures ParseFloatOrZero("") == 0 && ParseFloatOrZero("***") == 0
  {
    assert TrimStart("***") == "***";
    assert Unsigned("***") == "***";
    assert !IsDigit("***"[0]);
  }
}

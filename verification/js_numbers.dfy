/** JavaScript numbers as the source uses them: integers written in template
    strings (`${n}`) and read back with `parseInt`, which yields NaN when no
    digit is found. */
module JsNumbers {
  import opened Strings

  /** A JavaScript number restricted to what the model meets: an integer or NaN. */
  datatype Num = Int(value: int) | NaN

  predicate IsDigit(c: char) {
    '0' <= c <= '9'
  }

  predicate AllDigits(s: string) {
    forall i | 0 <= i < |s| :: IsDigit(s[i])
  }

  function DigitChar(d: nat): char
    requires d < 10
  {
    (48 + d) as char
  }

  /** `${n}` for a non-negative integer: its decimal digits. */
  function NatToString(n: nat): (s: string)
    ensures |s| >= 1 && AllDigits(s)
  {
    if n < 10 then [DigitChar(n)] else NatToString(n / 10) + [DigitChar(n % 10)]
  }

  /** `${i}` for any integer. */
  function IntToString(i: int): string {
    if i < 0 then "-" + NatToString(-i) else NatToString(i)
  }

  /** `${x}`: NaN prints as `NaN`. */
  function NumToString(x: Num): string {
    match x
    case Int(i) => IntToString(i)
    case NaN => "NaN"
  }

  /** The value of an alphanumeric character as a digit; 36 for anything else. */
  function DigitValue(c: char): nat {
    if '0' <= c <= '9' then c as nat - 48
    else if 'a' <= c <= 'z' then c as nat - 87
    else if 'A' <= c <= 'Z' then c as nat - 55
    else 36
  }

  /** The value of a digit string in the given radix, most significant digit first. */
  function DigitsValue(z: string, radix: nat): nat {
    if |z| == 0 then 0 else DigitsValue(z[..|z| - 1], radix) * radix + DigitValue(z[|z| - 1])
  }

  /** The longest prefix of `s` made of digits of the radix. */
  function DigitPrefix(s: string, radix: nat): (z: string)
    ensures |z| <= |s| && z == s[..|z|]
    ensures forall i | 0 <= i < |z| :: DigitValue(z[i]) < radix
    ensures |z| < |s| ==> DigitValue(s[|z|]) >= radix
  {
    if |s| == 0 || DigitValue(s[0]) >= radix then ""
    else [s[0]] + DigitPrefix(s[1..], radix)
  }

  /** The white space that `parseInt` skips before the number
      (the Unicode space separators other than U+00A0 are not modelled). */
  predicate IsWhiteSpace(c: char) {
    c == ' ' || c == '\t' || c == '\n' || c == '\r' || c == '\U{0B}' || c == '\U{0C}'
    || c == '\U{A0}' || c == '\U{FEFF}' || c == '\U{2028}' || c == '\U{2029}'
  }

  function TrimStart(s: string): (t: string)
    ensures |t| <= |s|
  {
    if |s| > 0 && IsWhiteSpace(s[0]) then TrimStart(s[1..]) else s
  }

  /** `parseInt(s)` with no radix: leading white space, an optional sign, an
      optional `0x`/`0X` prefix selecting base 16, then the longest run of digits;
      NaN when that run is empty. */
  function ParseInt(s: string): Num {
    var t := TrimStart(s);
    var negative := |t| > 0 && t[0] == '-';
    var u := if |t| > 0 && (t[0] == '-' || t[0] == '+') then t[1..] else t;
    var hex := StartsWith(u, "0x") || StartsWith(u, "0X");
    var radix := if hex then 16 else 10;
    var z := DigitPrefix(if hex then u[2..] else u, radix);
    var v: int := DigitsValue(z, radix);
    if z == "" then NaN else Int(if negative then -v else v)
  }

  lemma {:induction false} NatToStringValue(n: nat)
    ensures DigitsValue(NatToString(n), 10) == n
  {
    if n >= 10 {
      var prefix := NatToString(n / 10);
      var s := prefix + [DigitChar(n % 10)];
      assert s[..|s| - 1] == prefix;
      NatToStringValue(n / 10);
    }
  }

  lemma AllDigitsPrefix(s: string)
    requires AllDigits(s)
    ensures DigitPrefix(s, 10) == s
  {
  }

  /** `parseInt` reads back what `${n}` wrote. */
  lemma ParseIntOfNat(n: nat)
    ensures ParseInt(NatToString(n)) == Int(n)
  {
    var s := NatToString(n);
    assert IsDigit(s[0]);
    assert TrimStart(s) == s;
    assert !StartsWith(s, "0x") && !StartsWith(s, "0X") by {
      if |s| >= 2 {
        assert IsDigit(s[1]);
      }
    }
    AllDigitsPrefix(s);
    NatToStringValue(n);
  }

  /** Different numbers print differently. */
  lemma NatToStringInjective(a: nat, b: nat)
    requires NatToString(a) == NatToString(b)
    ensures a == b
  {
    NatToStringValue(a);
    NatToStringValue(b);
  }

  /** A printed number never holds an underscore. */
  lemma NumToStringNoUnderscore(x: Num)
    ensures '_' !in NumToString(x)
  {
    match x
    case NaN =>
    case Int(i) =>
      if i < 0 {
        var d := NatToString(-i);
        assert "-" + d == [('-')] + d;
        assert forall k | 0 <= k < |d| :: d[k] != '_';
      } else {
        var d := NatToString(i);
        assert forall k | 0 <= k < |d| :: d[k] != '_';
      }
  }

  /** Only the integer `n` itself prints as the decimal digits of `n`: neither
      NaN nor a negative number does. */
  lemma NumToStringIsNat(x: Num, n: nat)
    requires NumToString(x) == NatToString(n)
    ensures x == Int(n)
  {
    var d := NatToString(n);
    assert IsDigit(d[0]);
    match x
    case NaN =>
    case Int(i) =>
      if i >= 0 {
        NatToStringInjective(i, n);
      }
  }
}

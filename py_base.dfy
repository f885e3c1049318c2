/**
 * The few Python built-ins the client leans on, with Python's semantics:
 * slicing with negative and out-of-range bounds, `str(int)`, `int(str)` and
 * `str.encode()` (UTF-8).
 */
module PyBase {
  import opened Wrappers

  /** One element of a Python `bytes` object. */
  type byte = b: int | 0 <= b < 256

  type Bytes = seq<byte>

  // ---------------------------------------------------------------- slicing

  /** Python's normalisation of a slice bound `i` for a sequence of length `n`:
      a negative bound counts from the end, and the result is clamped to [0, n]. */
  function SliceIndex(i: int, n: nat): (k: nat)
    ensures k <= n
  {
    if i < 0 then (if n + i < 0 then 0 else n + i)
    else if i > n then n
    else i
  }

  /** `s[start:stop]`; an empty range gives the empty sequence. */
  function Slice<T>(s: seq<T>, start: int, stop: int): (r: seq<T>)
    ensures |r| <= |s|
  {
    var a, b := SliceIndex(start, |s|), SliceIndex(stop, |s|);
    if a < b then s[a..b] else []
  }

  /** `s[:stop]` */
  function Take<T>(s: seq<T>, stop: int): (r: seq<T>)
    ensures r == s[..SliceIndex(stop, |s|)]
  {
    Slice(s, 0, stop)
  }

  /** `s[start:]` */
  function Drop<T>(s: seq<T>, start: int): (r: seq<T>)
    ensures r == s[SliceIndex(start, |s|)..]
  {
    Slice(s, start, |s|)
  }

  // ------------------------------------------------------- str(int), int(str)

  predicate IsDigit(c: char) {
    '0' <= c <= '9'
  }

  function DigitValue(c: char): (d: nat)
    requires IsDigit(c)
    ensures d < 10
  {
    (c as int) - ('0' as int)
  }

  function DigitChar(d: nat): (c: char)
    requires d < 10
    ensures IsDigit(c) && DigitValue(c) == d
  {
    "0123456789"[d]
  }

  /** `str(n)` for a non-negative integer: its decimal digits, no leading zeros. */
  function NatToString(n: nat): (s: string)
    ensures |s| >= 1
    ensures forall i :: 0 <= i < |s| ==> IsDigit(s[i])
    ensures n >= 10 ==> |s| >= 2
    decreases n
  {
    if n < 10 then [DigitChar(n)] else NatToString(n / 10) + [DigitChar(n % 10)]
  }

  /** `str(i)` */
  function IntToString(i: int): string {
    if i < 0 then "-" + NatToString(-i) else NatToString(i)
  }

  /** The ASCII characters `str.isspace()` accepts; `int()` strips these. */
  predicate IsSpace(c: char) {
    var k := c as int;
    k == 32 || 9 <= k <= 13 || 28 <= k <= 31
  }

  function TrimStart(s: string): (r: string)
    ensures |r| <= |s|
    ensures r == s[|s| - |r|..]
    ensures r != [] ==> !IsSpace(r[0])
  {
    if |s| > 0 && IsSpace(s[0]) then TrimStart(s[1..]) else s
  }

  function TrimEnd(s: string): (r: string)
    ensures |r| <= |s|
    ensures r == s[..|r|]
    ensures r != [] ==> !IsSpace(r[|r| - 1])
  {
    if |s| > 0 && IsSpace(s[|s| - 1]) then TrimEnd(s[..|s| - 1]) else s
  }

  /** A run of decimal digits in which single underscores may separate digits. */
  predicate DigitsOrUnderscores(s: string) {
    forall i :: 0 <= i < |s| ==> IsDigit(s[i]) || s[i] == '_'
  }

  predicate WellFormedDigits(s: string) {
    && DigitsOrUnderscores(s)
    && |s| > 0
    && IsDigit(s[0])
    && IsDigit(s[|s| - 1])
    && forall i :: 0 <= i < |s| ==>
         IsDigit(s[i]) || (s[i] == '_' && i + 1 < |s| && IsDigit(s[i + 1]))
  }

  /** The value of a digit run, underscores ignored. */
  function DigitsValue(s: string): nat
    requires DigitsOrUnderscores(s)
  {
    if s == [] then 0
    else if IsDigit(s[|s| - 1]) then 10 * DigitsValue(s[..|s| - 1]) + DigitValue(s[|s| - 1])
    else DigitsValue(s[..|s| - 1])
  }

  /** `int(s)` in base 10: surrounding whitespace, an optional sign, digits.
      `None` stands for the `ValueError` Python raises. */
  function ParseInt(s: string): Option<int> {
    ParseSigned(TrimEnd(TrimStart(s)))
  }

  /** `int()` of text already stripped of surrounding whitespace. */
  function ParseSigned(t: string): Option<int> {
    if |t| > 0 && (t[0] == '+' || t[0] == '-') then
      if WellFormedDigits(t[1..]) then
        var v: int := DigitsValue(t[1..]);
        Some(if t[0] == '-' then -v else v)
      else None
    else if WellFormedDigits(t) then Some(DigitsValue(t))
    else None
  }

  lemma {:induction false} DigitsValueOfNatToString(n: nat)
    ensures DigitsValue(NatToString(n)) == n
    decreases n
  {
    var s := NatToString(n);
    if n >= 10 {
      DigitsValueOfNatToString(n / 10);
      assert s[..|s| - 1] == NatToString(n / 10);
    }
  }

  /** A digit run with no sign and no surrounding whitespace parses to its value. */
  lemma ParseDigitRun(s: string)
    requires forall i :: 0 <= i < |s| ==> IsDigit(s[i])
    requires |s| > 0
    ensures ParseInt(s) == Some(DigitsValue(s))
  {
    TrimsNothing(s);
    DigitRunWellFormed(s);
    assert ParseSigned(s) == Some(DigitsValue(s));
  }

  lemma TrimsNothing(s: string)
    requires |s| > 0 && !IsSpace(s[0]) && !IsSpace(s[|s| - 1])
    ensures TrimStart(s) == s && TrimEnd(s) == s
  {
  }

  lemma DigitRunWellFormed(s: string)
    requires forall i :: 0 <= i < |s| ==> IsDigit(s[i])
    requires |s| > 0
    ensures WellFormedDigits(s) && !IsSpace(s[0]) && !IsSpace(s[|s| - 1])
    ensures s[0] != '+' && s[0] != '-'
  {
  }

  /** `int(str(i)) == i`: the decimal rendering parses back to the same integer. */
  lemma ParseIntToString(i: int)
    ensures ParseInt(IntToString(i)) == Some(i)
  {
    var n: nat := if i < 0 then -i else i;
    var digits := NatToString(n);
    DigitsValueOfNatToString(n);
    DigitRunWellFormed(digits);
    if i < 0 {
      var s := "-" + digits;
      assert s[1..] == digits;
      TrimsNothing(s);
      assert ParseSigned(s) == Some(i);
    } else {
      ParseDigitRun(digits);
    }
  }

  /** Two ASCII digits parse to a value in 0..99. */
  lemma ParseTwoDigits(s: string, v: int)
    requires |s| == 2 && IsDigit(s[0]) && IsDigit(s[1])
    requires v == 10 * DigitValue(s[0]) + DigitValue(s[1])
    ensures ParseInt(s) == Some(v) && 0 <= v <= 99
  {
    ParseDigitRun(s);
    TwoDigitsValue(s, v);
  }

  lemma TwoDigitsValue(s: string, v: int)
    requires |s| == 2 && IsDigit(s[0]) && IsDigit(s[1])
    requires v == 10 * DigitValue(s[0]) + DigitValue(s[1])
    ensures DigitsValue(s) == v
  {
    DigitsValuePrefix(s, 1);
    DigitsValuePrefix(s, 2);
    assert s[..0] == [] && s[..2] == s;
  }

  /** The value of the first k digits of a run, one decimal place at a time. */
  lemma DigitsValuePrefix(s: string, k: nat)
    requires forall i :: 0 <= i < |s| ==> IsDigit(s[i])
    requires 0 < k <= |s|
    ensures DigitsValue(s[..k]) == 10 * DigitsValue(s[..k - 1]) + DigitValue(s[k - 1])
  {
    assert s[..k][..k - 1] == s[..k - 1];
  }

  // ------------------------------------------------------------ str.encode()

  /** The UTF-8 encoding of one Unicode scalar value. */
  function Utf8Char(c: char): (r: Bytes)
    ensures 1 <= |r| <= 4
    ensures (c as int < 128) <==> r == [c as int]
  {
    var k := c as int;
    if k < 0x80 then [k]
    else if k < 0x800 then [0xC0 + k / 64, 0x80 + k % 64]
    else if k < 0x10000 then [0xE0 + k / 4096, 0x80 + (k / 64) % 64, 0x80 + k % 64]
    else [0xF0 + k / 262144, 0x80 + (k / 4096) % 64, 0x80 + (k / 64) % 64, 0x80 + k % 64]
  }

  predicate IsAscii(s: string) {
    forall i :: 0 <= i < |s| ==> s[i] as int < 128
  }

  /** `s.encode()` with the default UTF-8 codec. */
  function Utf8(s: string): (r: Bytes)
    ensures |r| >= |s|
    ensures IsAscii(s) ==> |r| == |s| && forall i :: 0 <= i < |s| ==> r[i] == s[i] as int
  {
    if s == [] then [] else Utf8Char(s[0]) + Utf8(s[1..])
  }
}

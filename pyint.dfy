/** Python's `str(n)` and `int(s)` for base-10 integers, as used to read and
    print the run numbers and counters that appear in file names. */
module PyInt {
  import opened Wrappers

  predicate IsDigit(c: char) {
    '0' <= c <= '9'
  }

  /** A non-empty run of ASCII digits. */
  predicate IsDecimal(s: string) {
    s != [] && forall i :: 0 <= i < |s| ==> IsDigit(s[i])
  }

  function DigitChar(d: nat): (c: char)
    requires d < 10
    ensures IsDigit(c) && c as int - '0' as int == d
  {
    ('0' as int + d) as char
  }

  /** The value of a run of digits, most significant first. */
  function DigitsValue(s: string): nat
    requires forall i :: 0 <= i < |s| ==> IsDigit(s[i])
    decreases |s|
  {
    if s == [] then 0
    else
      assert IsDigit(s[|s| - 1]);
      DigitsValue(s[..|s| - 1]) * 10 + (s[|s| - 1] as int - '0' as int)
  }

  /** Python's `str(n)` for a non-negative integer: its shortest decimal form. */
  function NatToString(n: nat): (r: string)
    ensures IsDecimal(r)
    ensures DigitsValue(r) == n
    ensures r[0] == '0' ==> r == "0"
    decreases n
  {
    if n < 10 then [DigitChar(n)]
    else
      var r := NatToString(n / 10) + [DigitChar(n % 10)];
      assert r[..|r| - 1] == NatToString(n / 10);
      r
  }

  /** Python's `str(i)`. */
  function IntToString(i: int): (r: string)
    ensures r != []
    ensures i < 0 <==> r[0] == '-'
  {
    if i < 0 then "-" + NatToString(-i) else NatToString(i)
  }

  /** The characters Python's `int()` ignores around a number (the white space
      of `str.isspace`). */
  predicate IsPySpace(c: char) {
    var n := c as int;
    (9 <= n <= 13) || (28 <= n <= 32) || n == 0x85 || n == 0xA0 || n == 0x1680 ||
    (0x2000 <= n <= 0x200A) || n == 0x2028 || n == 0x2029 || n == 0x202F ||
    n == 0x205F || n == 0x3000
  }

  /** `s.lstrip()`: leading white space removed. */
  function LStrip(s: string): (r: string)
    ensures |r| <= |s| && r == s[|s| - |r|..]
    ensures r == [] || !IsPySpace(r[0])
    ensures forall k :: 0 <= k < |s| - |r| ==> IsPySpace(s[k])
    decreases |s|
  {
    if s != [] && IsPySpace(s[0]) then LStrip(s[1..]) else s
  }

  /** `s.rstrip()`: trailing white space removed. */
  function RStrip(s: string): (r: string)
    ensures |r| <= |s| && r == s[..|r|]
    ensures r == [] || !IsPySpace(r[|r| - 1])
    ensures forall k :: |r| <= k < |s| ==> IsPySpace(s[k])
    decreases |s|
  {
    if s != [] && IsPySpace(s[|s| - 1]) then RStrip(s[..|s| - 1]) else s
  }

  /** `r` is `s` from index `i` on, with only white space around it. */
  predicate PaddedAt(s: string, r: string, i: int) {
    0 <= i <= |s| - |r| && s[i..i + |r|] == r &&
    (forall k :: 0 <= k < i ==> IsPySpace(s[k])) &&
    (forall k :: i + |r| <= k < |s| ==> IsPySpace(s[k]))
  }

  /** `s.strip()`: white space removed at both ends, and nothing else. */
  function Strip(s: string): (r: string)
    ensures r == [] || (!IsPySpace(r[0]) && !IsPySpace(r[|r| - 1]))
    ensures exists i :: PaddedAt(s, r, i)
  {
    var t := LStrip(s);
    var r := RStrip(t);
    assert r != [] ==> r[0] == t[0];
    var i := |s| - |t|;
    assert s[i..i + |r|] == r;
    assert PaddedAt(s, r, i);
    r
  }

  /** Python's `int(s)` (base 10): None where Python raises ValueError. */
  function ParseInt(s: string): (r: Option<int>)
    ensures r.Some? <==>
      (IsDecimal(Strip(s)) || (|Strip(s)| > 1 && Strip(s)[0] in "+-" && IsDecimal(Strip(s)[1..])))
    ensures r.Some? && IsDecimal(Strip(s)) ==> r.value == DigitsValue(Strip(s))
    ensures r.Some? && !IsDecimal(Strip(s)) ==>
      r.value == (if Strip(s)[0] == '-' then -1 else 1) * DigitsValue(Strip(s)[1..])
  {
    var t := Strip(s);
    if IsDecimal(t) then Some(DigitsValue(t))
    else if |t| > 1 && t[0] in "+-" && IsDecimal(t[1..]) then
      Some((if t[0] == '-' then -1 else 1) * DigitsValue(t[1..]))
    else None
  }

  /** A string with no white space at either end is its own `strip()`. */
  lemma {:induction false} StripUnpadded(s: string)
    requires s != [] && !IsPySpace(s[0]) && !IsPySpace(s[|s| - 1])
    ensures Strip(s) == s
  {
  }

  /** Reading back what `str` printed gives the number: `int(str(i)) == i`. */
  lemma {:induction false} ParseIntOfIntToString(i: int)
    ensures ParseInt(IntToString(i)) == Some(i)
  {
    var r := IntToString(i);
    var d := NatToString(if i < 0 then -i else i);
    assert !IsPySpace(d[|d| - 1]) && !IsPySpace(d[0]);
    StripUnpadded(r);
    if i < 0 {
      assert r[1..] == d;
    }
  }

  /** `str` is injective on the naturals. */
  lemma {:induction false} NatToStringInjective(m: nat, n: nat)
    requires NatToString(m) == NatToString(n)
    ensures m == n
  {
  }
}

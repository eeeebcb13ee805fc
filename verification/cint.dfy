/** The two integer conversions the `+` operation uses: `atoi` (section
    7.22.1.2 of ISO/IEC 9899:2011: skip white space, take an optional sign
    and the longest run of decimal digits after it, 0 when there is none)
    and the `%d` conversion of the formatted reply (an optional '-' and the
    decimal digits of the magnitude, without leading zeros).  Integers are
    unbounded here; C `int` overflow is not modelled. */
module CInt {
  import opened CScan

  predicate IsDigit(c: char) {
    '0' <= c <= '9'
  }

  function DigitValue(c: char): (d: nat)
    requires IsDigit(c)
    ensures d < 10
  {
    (c as int) - ('0' as int)
  }

  function DigitChar(d: nat): (c: char)
    requires d < 10
    ensures IsDigit(c) && DigitValue(c) == d
  {
    (('0' as int) + d) as char
  }

  /** The end of the run of decimal digits that starts at `i`. */
  function DigitEnd(s: string, i: nat): (k: nat)
    requires i <= |s|
    ensures i <= k <= |s|
    ensures forall j :: i <= j < k ==> IsDigit(s[j])
    ensures k < |s| ==> !IsDigit(s[k])
    decreases |s| - i
  {
    if i < |s| && IsDigit(s[i]) then DigitEnd(s, i + 1) else i
  }

  /** The value of a string of decimal digits, most significant first. */
  function DigitsValue(ds: string): nat
    requires forall i :: 0 <= i < |ds| ==> IsDigit(ds[i])
  {
    if ds == [] then 0
    else 10 * DigitsValue(ds[..|ds| - 1]) + DigitValue(ds[|ds| - 1])
  }

  /** `atoi`: the value of the longest prefix of the form
      white space, optional sign, digits; 0 when there is no digit. */
  function Atoi(s: string): (r: int)
    ensures (forall j :: 0 <= j < |s| ==> !IsDigit(s[j])) ==> r == 0
    ensures r < 0 ==> '-' in s
  {
    var j := SpaceEnd(s, 0);
    var signed := j < |s| && (s[j] == '-' || s[j] == '+');
    var d := if signed then j + 1 else j;
    var m: int := DigitsValue(s[d..DigitEnd(s, d)]);
    if signed && s[j] == '-' then -m else m
  }

  /** The decimal digits of `n`, without leading zeros. */
  function FormatNat(n: nat): (s: string)
    ensures 0 < |s| && forall i :: 0 <= i < |s| ==> IsDigit(s[i])
  {
    if n < 10 then [DigitChar(n)] else FormatNat(n / 10) + [DigitChar(n % 10)]
  }

  /** The `%d` conversion. */
  function FormatInt(n: int): (s: string)
    ensures 0 < |s| && (s[0] == '-' <==> n < 0)
    ensures forall i :: (if n < 0 then 1 else 0) <= i < |s| ==> IsDigit(s[i])
    ensures n < 0 ==> 1 < |s|
  {
    if n < 0 then "-" + FormatNat(-n) else FormatNat(n)
  }

  lemma {:induction false} FormatNatValue(n: nat)
    ensures DigitsValue(FormatNat(n)) == n
    ensures FormatNat(n)[0] != '0' || n == 0
  {
    if n >= 10 {
      var s := FormatNat(n);
      FormatNatValue(n / 10);
      assert s[..|s| - 1] == FormatNat(n / 10);
      assert s[0] == FormatNat(n / 10)[0];
    }
  }

  /** The digit run from `i` stops at the first non-digit. */
  lemma {:induction false} DigitEndAt(s: string, i: nat, e: nat)
    requires i <= e <= |s|
    requires forall j :: i <= j < e ==> IsDigit(s[j])
    requires e == |s| || !IsDigit(s[e])
    ensures DigitEnd(s, i) == e
    decreases e - i
  {
    if i < e {
      DigitEndAt(s, i + 1, e);
    }
  }

  /** `atoi` of a run of digits followed by text that does not start with
      a digit. */
  lemma AtoiDigits(ds: string, rest: string)
    requires 0 < |ds| && forall i :: 0 <= i < |ds| ==> IsDigit(ds[i])
    requires rest == [] || !IsDigit(rest[0])
    ensures Atoi(ds + rest) == DigitsValue(ds)
  {
    var s := ds + rest;
    assert s[0] == ds[0];
    assert SpaceEnd(s, 0) == 0;
    DigitEndAt(s, 0, |ds|);
    assert s[0..|ds|] == ds;
  }

  /** The same after a minus sign. */
  lemma AtoiNegativeDigits(ds: string, rest: string)
    requires 0 < |ds| && forall i :: 0 <= i < |ds| ==> IsDigit(ds[i])
    requires rest == [] || !IsDigit(rest[0])
    ensures Atoi("-" + ds + rest) == -(DigitsValue(ds) as int)
  {
    var s := "-" + ds + rest;
    assert s[0] == '-';
    assert SpaceEnd(s, 0) == 0;
    DigitEndAt(s, 1, 1 + |ds|);
    assert s[1..1 + |ds|] == ds;
  }

  /** The same after a plus sign, which `atoi` accepts and ignores. */
  lemma AtoiPlusDigits(ds: string, rest: string)
    requires 0 < |ds| && forall i :: 0 <= i < |ds| ==> IsDigit(ds[i])
    requires rest == [] || !IsDigit(rest[0])
    ensures Atoi("+" + ds + rest) == DigitsValue(ds)
  {
    var s := "+" + ds + rest;
    assert s[0] == '+';
    assert SpaceEnd(s, 0) == 0;
    DigitEndAt(s, 1, 1 + |ds|);
    assert s[1..1 + |ds|] == ds;
  }

  /** `atoi` reads back what `%d` wrote, and ignores whatever follows the
      number when it does not start with a digit. */
  lemma AtoiFormatInt(n: int, rest: string)
    requires rest == [] || !IsDigit(rest[0])
    ensures Atoi(FormatInt(n) + rest) == n
  {
    if n < 0 {
      FormatNatValue(-n);
      AtoiNegativeDigits(FormatNat(-n), rest);
    } else {
      FormatNatValue(n);
      AtoiDigits(FormatNat(n), rest);
    }
  }

  /** `atoi` of text that does not start with white space, a sign or a
      digit is 0. */
  lemma AtoiNoNumber(s: string)
    requires s == [] || !(IsSpace(s[0]) || s[0] == '-' || s[0] == '+' || IsDigit(s[0]))
    ensures Atoi(s) == 0
  {
    assert SpaceEnd(s, 0) == 0;
    assert DigitEnd(s, 0) == 0;
    assert s[0..0] == [];
  }
}

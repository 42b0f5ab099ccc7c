/** Frame numbers as hexadecimal text: `%lx` printing and `strtoull(_, _, 16)`. */
module HexText {
  const MAX: nat := 0xFFFF_FFFF_FFFF_FFFF

  function Digit(d: nat): char
    requires d < 16
  {
    "0123456789abcdef"[d]
  }

  /** The value of a hexadecimal digit, or 16 for any other character. */
  function DigitValue(c: char): nat
  {
    if '0' <= c <= '9' then c as int - '0' as int
    else if 'a' <= c <= 'f' then c as int - 'a' as int + 10
    else if 'A' <= c <= 'F' then c as int - 'A' as int + 10
    else 16
  }

  /** `%lx` */
  function Hex(n: nat): (s: string)
    ensures s != []
  {
    if n < 16 then [Digit(n)] else Hex(n / 16) + [Digit(n % 16)]
  }

  predicate IsSpace(c: char)
  {
    c == ' ' || c == '\t' || c == '\n' || c as int == 11 || c as int == 12 || c == '\r'
  }

  function SkipSpace(s: string): string
  {
    if s != [] && IsSpace(s[0]) then SkipSpace(s[1..]) else s
  }

  /** The digits a number begins with. */
  function Digits(s: string): (d: string)
    ensures forall i | 0 <= i < |d| :: DigitValue(d[i]) < 16
  {
    if s != [] && DigitValue(s[0]) < 16 then [s[0]] + Digits(s[1..]) else []
  }

  function Value(d: string): nat
    requires forall i | 0 <= i < |d| :: DigitValue(d[i]) < 16
  {
    if d == [] then 0 else 16 * Value(d[..|d| - 1]) + DigitValue(d[|d| - 1])
  }

  /** A `0x` in front of a digit is skipped. */
  function SkipPrefix(s: string): string
  {
    if |s| >= 3 && s[0] == '0' && (s[1] == 'x' || s[1] == 'X') && DigitValue(s[2]) < 16 then s[2..] else s
  }

  /** `strtoull(s, NULL, 16)`: a minus sign wraps the value around, and what is too large counts as
      the largest number. */
  function ToU64(s: string): (n: nat)
    ensures n <= MAX
  {
    var t := SkipSpace(s);
    var negative := t != [] && t[0] == '-';
    var u := if t != [] && (t[0] == '-' || t[0] == '+') then t[1..] else t;
    var v := Value(Digits(SkipPrefix(u)));
    if v > MAX then MAX else if negative && v != 0 then MAX + 1 - v else v
  }

  // ----- the round trip

  lemma DigitOk(d: nat)
    requires d < 16
    ensures DigitValue(Digit(d)) == d
  {
  }

  predicate AllDigits(s: string)
  {
    forall i | 0 <= i < |s| :: DigitValue(s[i]) < 16
  }

  lemma {:induction false} HexDigits(n: nat)
    ensures AllDigits(Hex(n)) && Value(Hex(n)) == n
  {
    DigitOk(n % 16);
    if n >= 16 {
      HexDigits(n / 16);
      var s := Hex(n);
      assert s[..|s| - 1] == Hex(n / 16);
    } else {
      assert Hex(n)[..0] == [];
    }
  }

  lemma {:induction false} DigitsAll(s: string)
    requires AllDigits(s)
    ensures Digits(s) == s
  {
    if s != [] { DigitsAll(s[1..]); }
  }

  /** A text of digits has nothing to skip. */
  lemma PlainNumber(s: string)
    requires s != [] && AllDigits(s) && Value(s) <= MAX
    ensures ToU64(s) == Value(s) && s[0] != 'N'
  {
    NotSpecial(s[0]);
    NoPrefix(s);
    DigitsAll(s);
    Plain(s);
  }

  lemma NoPrefix(s: string)
    requires AllDigits(s)
    ensures SkipPrefix(s) == s
  {
    if |s| >= 2 { NotSpecial(s[1]); }
  }

  lemma Plain(s: string)
    requires s != [] && !IsSpace(s[0]) && s[0] != '-' && s[0] != '+' && SkipPrefix(s) == s && Digits(s) == s
    requires Value(Digits(s)) <= MAX
    ensures ToU64(s) == Value(Digits(s))
  {
  }

  lemma NotSpecial(c: char)
    requires DigitValue(c) < 16
    ensures !IsSpace(c) && c != '-' && c != '+' && c != 'x' && c != 'X' && c != 'N'
  {
  }

  /** No number is printed as the word for a missing one. */
  lemma NeverNan(n: nat)
    ensures Hex(n) != "NAN"
  {
    HexDigits(n);
    NotSpecial(Hex(n)[0]);
    assert "NAN"[0] == 'N';
  }

  /** What is printed is read back. */
  lemma RoundTrip(n: nat)
    requires n <= MAX
    ensures ToU64(Hex(n)) == n
  {
    HexDigits(n);
    PlainNumber(Hex(n));
  }
}

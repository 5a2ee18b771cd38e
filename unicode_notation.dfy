/**
 * The `U+XXXX` notation for a single character: a parser that accepts any
 * hexadecimal spelling `u32::from_str_radix` accepts, and a printer that
 * writes upper-case digits without leading zeros.
 */
module UnicodeNotation {
  import opened Wrappers
  import opened Chars

  const PREFIX: string := "U+"

  predicate IsHexDigit(ch: char) {
    '0' <= ch <= '9' || 'a' <= ch <= 'f' || 'A' <= ch <= 'F'
  }

  predicate IsUpperHexDigit(ch: char) {
    '0' <= ch <= '9' || 'A' <= ch <= 'F'
  }

  predicate AllHex(s: string) {
    forall i :: 0 <= i < |s| ==> IsHexDigit(s[i])
  }

  /** Upper-case digits with no leading zero: the only spelling the printer produces. */
  predicate IsCanonicalHex(s: string) {
    && |s| > 0
    && (forall i :: 0 <= i < |s| ==> IsUpperHexDigit(s[i]))
    && (|s| == 1 || s[0] != '0')
  }

  /** The value of one hexadecimal digit, in either case. */
  function DigitValue(ch: char): (d: nat)
    requires IsHexDigit(ch)
    ensures d < 16
  {
    if '0' <= ch <= '9' then ch as int - '0' as int
    else if 'a' <= ch <= 'f' then ch as int - 'a' as int + 10
    else ch as int - 'A' as int + 10
  }

  /** The upper-case digit for a value below 16. */
  function UpperDigit(d: nat): (ch: char)
    requires d < 16
    ensures IsUpperHexDigit(ch) && IsHexDigit(ch) && DigitValue(ch) == d
  {
    if d < 10 then ('0' as int + d) as char else ('A' as int + d - 10) as char
  }

  /** The number a string of hexadecimal digits denotes, most significant digit first. */
  function HexValue(s: string): nat
    requires AllHex(s)
  {
    if s == [] then 0 else HexValue(s[..|s| - 1]) * 16 + DigitValue(s[|s| - 1])
  }

  /**
   * The digit loop of `u32::from_str_radix(_, 16)`, left to right: each step
   * rejects a character that is not a digit and checks the multiplication and
   * addition against `u32::MAX`.
   */
  function CheckedDigits(s: string): (r: Option<nat>)
    ensures r == if AllHex(s) && HexValue(s) <= U32_MAX then Some(HexValue(s)) else None
  {
    if s == [] then Some(0)
    else
      var init := s[..|s| - 1];
      var last := s[|s| - 1];
      assert forall i :: 0 <= i < |init| ==> init[i] == s[i];
      match CheckedDigits(init)
      case None =>
        // a failed prefix fails the whole string: either a non-digit, or a value
        // that can only grow
        assert AllHex(s) ==> HexValue(s) >= HexValue(init);
        None
      case Some(acc) =>
        if !IsHexDigit(last) then None
        else
          var v := acc * 16 + DigitValue(last);
          if v > U32_MAX then None else Some(v)
  }

  /**
   * `u32::from_str_radix(s, 16)`: the empty string and a lone sign are
   * rejected, one leading `+` is skipped, and the rest goes through the digit
   * loop (a `-` is not a digit of an unsigned number).
   */
  function FromStrRadix16(s: string): (r: Option<nat>)
    ensures var digits := if |s| > 0 && s[0] == '+' then s[1..] else s;
            && (r.Some? <==> |digits| > 0 && AllHex(digits) && HexValue(digits) <= U32_MAX)
            && (r.Some? ==> r.value == HexValue(digits))
  {
    if s == [] || s == "+" || s == "-" then None
    else if s[0] == '+' then CheckedDigits(s[1..])
    else CheckedDigits(s)
  }

  /** The digits after `U+` and an optional `+` sign. */
  function DigitsOf(s: string): string
    requires |s| >= 2
  {
    if |s| > 2 && s[2] == '+' then s[3..] else s[2..]
  }

  /** `s` is `U+`, an optional `+`, one or more hexadecimal digits, and the value is a scalar value. */
  predicate IsNotation(s: string) {
    && |s| >= 2 && s[..2] == PREFIX
    && |DigitsOf(s)| > 0
    && AllHex(DigitsOf(s))
    && IsScalarValue(HexValue(DigitsOf(s)))
  }

  /** `unicode_notation_to_char`: strip `U+`, read base 16 as a `u32`, and keep it if it is a `char`. */
  function ParseNotation(s: string): (r: Option<Char>)
    ensures r.Some? <==> IsNotation(s)
    ensures r.Some? ==> r.value == HexValue(DigitsOf(s))
  {
    if |s| < 2 || s[..2] != PREFIX then None
    else match FromStrRadix16(s[2..])
      case None => None
      case Some(n) => FromU32(n)
  }

  /** The upper-case hexadecimal spelling of `n` without leading zeros (`{:X}`). */
  function HexDigits(n: nat): (s: string)
    ensures IsCanonicalHex(s) && AllHex(s) && HexValue(s) == n
  {
    if n < 16 then [UpperDigit(n)]
    else
      var init := HexDigits(n / 16);
      var s := init + [UpperDigit(n % 16)];
      assert s[..|s| - 1] == init;
      assert init != "0";
      s
  }

  /** `char_to_unicode_notation`: `U+` followed by the canonical digits of the code. */
  function ToNotation(c: Char): (r: string)
    ensures |r| > 2 && r[..2] == PREFIX
    ensures IsCanonicalHex(r[2..]) && AllHex(r[2..]) && HexValue(r[2..]) == c
  {
    assert IsScalarValue(c);
    var r := PREFIX + HexDigits(c as nat);
    assert r[2..] == HexDigits(c as nat);
    r
  }

  // ---------------------------------------------------------------------------
  // Properties

  /** Printing then parsing gives back the character. */
  lemma PrintThenParse(c: Char)
    ensures ParseNotation(ToNotation(c)) == Some(c)
  {
    var r := ToNotation(c);
    assert r[2] != '+';
    assert DigitsOf(r) == r[2..];
  }

  /** A value of 0 means every digit is `0`. */
  lemma {:induction false} ZeroValueMeansZeroDigits(s: string)
    requires AllHex(s) && HexValue(s) == 0
    ensures forall i :: 0 <= i < |s| ==> s[i] == '0'
  {
    if s != [] {
      var init := s[..|s| - 1];
      ZeroValueMeansZeroDigits(init);
      assert forall i :: 0 <= i < |init| ==> s[i] == init[i];
    }
  }

  lemma DivModSixteen(a: nat, d: nat)
    requires d < 16
    ensures (a * 16 + d) / 16 == a && (a * 16 + d) % 16 == d
  {
  }

  /** The last digit of a number is peeled off by the printer's recursion. */
  lemma HexDigitsStep(a: nat, d: nat)
    requires d < 16 && a > 0
    ensures HexDigits(a * 16 + d) == HexDigits(a) + [UpperDigit(d)]
  {
    DivModSixteen(a, d);
  }

  /** A canonical spelling is the one the printer produces for its value. */
  lemma {:induction false} CanonicalHexIsUnique(s: string)
    requires IsCanonicalHex(s)
    ensures AllHex(s) && HexDigits(HexValue(s)) == s
  {
    if |s| == 1 {
      assert s[..0] == [];
      assert HexValue(s) == HexValue(s[..0]) * 16 + DigitValue(s[0]) == DigitValue(s[0]);
      assert s == [UpperDigit(HexValue(s))];
    } else {
      var init, last := s[..|s| - 1], s[|s| - 1];
      assert init[0] == s[0];
      assert IsCanonicalHex(init);
      CanonicalHexIsUnique(init);
      if HexValue(init) == 0 {
        ZeroValueMeansZeroDigits(init);
        assert false;
      }
      HexDigitsStep(HexValue(init), DigitValue(last));
      assert UpperDigit(DigitValue(last)) == last;
      assert s == init + [last];
    }
  }

  /** Parsing then printing gives back the text when it was written in the printer's own canonical form. */
  lemma ParseThenPrintCanonical(s: string)
    requires |s| > 2 && s[..2] == PREFIX && IsCanonicalHex(s[2..])
    requires ParseNotation(s).Some?
    ensures ToNotation(ParseNotation(s).value) == s
  {
    assert DigitsOf(s) == s[2..];
    CanonicalHexIsUnique(s[2..]);
    assert s == PREFIX + s[2..];
  }

  /** Leading zeros are ignored: they change neither acceptance nor value. */
  lemma {:induction false} LeadingZeroIgnored(d: string)
    requires AllHex(d)
    ensures AllHex("0" + d) && HexValue("0" + d) == HexValue(d)
  {
    var z := "0" + d;
    assert forall i :: 0 <= i < |z| ==> IsHexDigit(z[i]);
    if d != [] {
      var init := d[..|d| - 1];
      assert z[..|z| - 1] == "0" + init;
      LeadingZeroIgnored(init);
    }
  }

  /** Input that does not start with `U+` is rejected. */
  lemma RequiresPrefix(s: string)
    requires |s| < 2 || s[..2] != PREFIX
    ensures ParseNotation(s) == None
  {
  }

  /** Surrogates and values above U+10FFFF are rejected, however they are spelled. */
  lemma RejectsNonScalar(s: string)
    requires |s| >= 2 && s[..2] == PREFIX && AllHex(DigitsOf(s))
    requires !IsScalarValue(HexValue(DigitsOf(s)))
    ensures ParseNotation(s) == None
  {
  }

  /** `'A'` prints as `U+41` and parses back. */
  lemma PrintExample()
    ensures ToNotation(0x41) == "U+41"
    ensures ParseNotation("U+41") == Some(0x41)
  {
    assert HexDigits(0x41) == "41";
    PrintThenParse(0x41);
  }

  /** Lower-case digits are accepted. */
  lemma LowerCaseExample()
    ensures ParseNotation("U+1f600") == Some(0x1F600)
  {
    assert DigitsOf("U+1f600") == "1f600";
    assert "1f600"[..4] == "1f60" && "1f60"[..3] == "1f6" && "1f6"[..2] == "1f" && "1f"[..1] == "1";
    assert HexValue("1f600") == 0x1F600;
  }

  /** A `+` sign after the prefix and leading zeros are accepted. */
  lemma SignAndLeadingZeroExamples()
    ensures ParseNotation("U++41") == Some(0x41)
    ensures ParseNotation("U+0041") == Some(0x41)
  {
    assert DigitsOf("U++41") == "41";
    assert "41"[..1] == "4";
    assert HexValue("41") == 0x41;
    assert DigitsOf("U+0041") == "0041";
    LeadingZeroIgnored("41");
    assert "0" + "41" == "041";
    LeadingZeroIgnored("041");
    assert "0" + "041" == "0041";
  }

  /** An empty number, a surrogate and a lower-case prefix are rejected. */
  lemma RejectionExamples()
    ensures ParseNotation("U+") == None
    ensures ParseNotation("U+D800") == None
    ensures ParseNotation("u+41") == None
  {
    assert DigitsOf("U+") == [];
    assert DigitsOf("U+D800") == "D800";
    assert "D800"[..3] == "D80" && "D80"[..2] == "D8" && "D8"[..1] == "D";
    assert HexValue("D800") == 0xD800;
    assert "u+41"[0] == 'u';
  }
}

/** `stou` of `scanner.c`: a number of a filter expression, in one of three bases, as 32 bits. */
module Scanner {
  import opened Words
  import BpfImage

  datatype Token = Num(n: U32) | Overflows | NotOctal

  predicate IsDecimalDigit(c: char) {
    '0' <= c <= '9'
  }

  predicate IsHexDigit(c: char) {
    '0' <= c <= '9' || 'a' <= c <= 'f' || 'A' <= c <= 'F'
  }

  predicate IsOctalDigit(c: char) {
    '0' <= c <= '7'
  }

  predicate IsHex(text: string) {
    |text| >= 2 && text[0] == '0' && (text[1] == 'x' || text[1] == 'X')
  }

  /** What the patterns of the scanner hand over. */
  ghost predicate IsNumber(text: string) {
    if IsHex(text) then forall i | 2 <= i < |text| :: IsHexDigit(text[i])
    else text != [] && forall i | 0 <= i < |text| :: IsDecimalDigit(text[i])
  }

  function DigitOf(c: char): (d: nat)
    requires IsHexDigit(c)
    ensures d < 16
  {
    if c <= '9' then c as int - '0' as int
    else if c <= 'F' then c as int - 'A' as int + 10
    else c as int - 'a' as int + 10
  }

  /** The number that `digits` write in `base`. */
  function Value(base: nat, digits: string): nat
    requires forall i | 0 <= i < |digits| :: IsHexDigit(digits[i])
  {
    if digits == [] then 0
    else Value(base, digits[..|digits| - 1]) * base + DigitOf(digits[|digits| - 1])
  }

  /** How many octal digits come first. */
  function OctalPrefix(digits: string): (n: nat)
    ensures n <= |digits| && forall i | 0 <= i < n :: IsOctalDigit(digits[i])
    ensures n < |digits| ==> !IsOctalDigit(digits[n])
  {
    if digits == [] || !IsOctalDigit(digits[0]) then 0 else 1 + OctalPrefix(digits[1..])
  }

  function Limited(v: nat): Token {
    if v < 0x1_0000_0000 then Num(v) else Overflows
  }

  /** The exact result: the value if it fits, and else the error met first from the left. */
  ghost function Scanned(text: string): Token
    requires IsNumber(text)
  {
    if IsHex(text) then Limited(Value(16, text[2..]))
    else if text[0] != '0' then Limited(Value(10, text))
    else
      var digits := text[1..];
      var n := OctalPrefix(digits);
      var value := Limited(Value(8, digits[..n]));
      if value.Num? && n < |digits| then NotOctal else value
  }

  lemma ValueStep(base: nat, digits: string, i: nat)
    requires i < |digits| && forall j | 0 <= j < |digits| :: IsHexDigit(digits[j])
    ensures Value(base, digits[..i + 1]) == Value(base, digits[..i]) * base + DigitOf(digits[i])
  {
    assert digits[..i + 1][..i] == digits[..i];
  }

  lemma TimesGrows(a: nat, b: nat)
    requires b >= 1
    ensures a <= a * b
  {
    assert a * b == a + a * (b - 1);
  }

  lemma {:induction false} ValueGrows(base: nat, digits: string, i: nat)
    requires base >= 1 && i <= |digits| && forall j | 0 <= j < |digits| :: IsHexDigit(digits[j])
    ensures Value(base, digits[..i]) <= Value(base, digits)
    decreases |digits| - i
  {
    if i == |digits| {
      assert digits[..i] == digits;
    } else {
      ValueStep(base, digits, i);
      ValueGrows(base, digits, i + 1);
      TimesGrows(Value(base, digits[..i]), base);
      hide Value, IsHexDigit, DigitOf;
    }
  }

  lemma ValueOfNone()
    ensures Value(8, []) == Value(10, []) == Value(16, []) == 0
  {
  }

  method Stou(text: string) returns (token: Token)
    requires IsNumber(text)
    ensures token == Scanned(text)
  {
    ValueOfNone();
    hide Value;
    var n: U32 := 0;
    var i := 0;
    if text[0] == '0' {
      if |text| >= 2 && (text[1] == 'x' || text[1] == 'X') {
        ghost var digits := text[2..];
        while i < |text| - 2
          invariant 0 <= i <= |text| - 2 && n == Value(16, digits[..i])
        {
          ValueStep(16, digits, i);
          ValueGrows(16, digits, i + 1);
          var c := text[2 + i];
          var digit := DigitOf(c);
          if n > 0xFFF_FFFF {
            return Overflows;
          }
          n := n * 16 + digit;
          i := i + 1;
        }
        assert digits[..i] == digits;
      } else {
        ghost var digits := text[1..];
        while i < |text| - 1
          invariant 0 <= i <= |text| - 1 && i <= OctalPrefix(digits)
          invariant n == Value(8, digits[..i])
        {
          var c := text[1 + i];
          assert c == digits[i];
          if !('0' <= c <= '7') {
            return NotOctal;
          }
          var m := OctalPrefix(digits);
          ValueStep(8, digits, i);
          ValueGrows(8, digits[..m], i + 1);
          assert digits[..m][..i + 1] == digits[..i + 1];
          var digit := DigitOf(c);
          if n > 0x1FFF_FFFF {
            return Overflows;
          }
          n := n * 8 + digit;
          i := i + 1;
        }
        assert digits[..i] == digits;
      }
    } else {
      while i < |text|
        invariant 0 <= i <= |text| && n == Value(10, text[..i])
      {
        ValueStep(10, text, i);
        ValueGrows(10, text, i + 1);
        var digit := DigitOf(text[i]);
        if n > 0xFFFF_FFFF / 10 || (n == 0xFFFF_FFFF / 10 && digit > 0xFFFF_FFFF % 10) {
          return Overflows;
        }
        n := n * 10 + digit;
        i := i + 1;
      }
      assert text[..i] == text;
    }
    return Num(n);
  }

  // ---------------------------------------------------------------------------------------------
  // Reading what the disassembler prints
  // ---------------------------------------------------------------------------------------------

  lemma {:induction false} ReadsDigits(base: nat, n: nat)
    requires 2 <= base <= 16
    ensures var s := BpfImage.Digits(base, n);
            && (forall i | 0 <= i < |s| :: IsHexDigit(s[i]) && DigitOf(s[i]) < base)
            && Value(base, s) == n && (s[0] == '0' ==> n == 0 && s == "0")
    decreases n
  {
    if n >= base {
      ReadsDigits(base, BpfImage.LeadingPart(base, n));
    }
  }

  lemma ReadsDecimal(n: U32)
    ensures var s := BpfImage.Digits(10, n); IsNumber(s) && Scanned(s) == Num(n)
  {
    ReadsDigits(10, n);
    assert !IsHex(BpfImage.Digits(10, n));
  }

  /** Of the numbers the disassembler prints, the scanner reads back those in hexadecimal digits, and
      those in decimal exactly below 2^31: the others are printed as negative numbers. */
  lemma ReadsWhatIsPrinted(k: U32)
    ensures var s := BpfImage.DecimalOfWord(k); IsNumber(s) && Scanned(s) == Num(k) <==> k < 0x8000_0000
    ensures var s := BpfImage.DecimalOfWord(k); !IsNumber(s) <==> k >= 0x8000_0000
    ensures var s := "0x" + BpfImage.Hex(k); IsNumber(s) && Scanned(s) == Num(k)
  {
    ReadsDigits(16, k);
    var h := "0x" + BpfImage.Hex(k);
    assert h[2..] == BpfImage.Hex(k);
    if k < 0x8000_0000 {
      ReadsDecimal(k);
    } else {
      assert BpfImage.DecimalOfWord(k)[0] == '-';
    }
    hide Scanned, BpfImage.Digits;
  }

  // ---------------------------------------------------------------------------------------------
  // Capital letters
  // ---------------------------------------------------------------------------------------------

  /** The letters of hexadecimal numbers in the other case. */
  function OtherCase(c: char): char {
    if 'a' <= c <= 'f' || c == 'x' then c - 32 as char
    else if 'A' <= c <= 'F' || c == 'X' then c + 32 as char
    else c
  }

  ghost predicate SameLetters(s: string, t: string) {
    |s| == |t| && forall i | 0 <= i < |s| :: t[i] == s[i] || t[i] == OtherCase(s[i])
  }

  lemma DigitsHaveTwoCases(c: char)
    requires IsHexDigit(c)
    ensures IsHexDigit(OtherCase(c)) && DigitOf(OtherCase(c)) == DigitOf(c)
    ensures IsDecimalDigit(c) ==> OtherCase(c) == c
  {
  }

  lemma {:induction false} ValueInEitherCase(base: nat, s: string, t: string)
    requires SameLetters(s, t) && forall i | 0 <= i < |s| :: IsHexDigit(s[i])
    ensures (forall i | 0 <= i < |t| :: IsHexDigit(t[i])) && Value(base, t) == Value(base, s)
    decreases |s|
  {
    hide OtherCase, IsHexDigit, DigitOf;
    if s == [] {
    } else {
      var n := |s| - 1;
      ValueInEitherCase(base, s[..n], t[..n]);
      DigitsHaveTwoCases(s[n]);
    }
  }

  lemma DecimalHasOneCase(s: string, t: string)
    requires SameLetters(s, t) && forall i | 0 <= i < |s| :: IsDecimalDigit(s[i])
    ensures s == t
  {
    forall i | 0 <= i < |s|
      ensures s[i] == t[i]
    {
      DigitsHaveTwoCases(s[i]);
    }
  }

  /** A number is scanned to the same token with its letters in the other case, all or some of them. */
  lemma CaseDoesNotMatter(text: string, other: string)
    requires IsNumber(text) && SameLetters(text, other)
    ensures IsNumber(other) && Scanned(other) == Scanned(text)
  {
    if IsHex(text) {
      var s, t := text[2..], other[2..];
      assert SameLetters(s, t);
      ValueInEitherCase(16, s, t);
      assert forall i | 2 <= i < |text| :: other[i] == t[i - 2];
    } else {
      DecimalHasOneCase(text, other);
    }
    hide Value, DigitOf, OctalPrefix;
  }
}

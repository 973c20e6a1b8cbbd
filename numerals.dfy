/** Positional notation of 64-bit integers, as Go's strconv.FormatInt and
    strconv.ParseInt (and fmt's %b, %o, %d and %x verbs, which agree with
    FormatInt in bases 2, 8, 10 and 16) write and read them. */
module Numerals {
  import opened Results

  const Int64Min: int := -0x8000_0000_0000_0000
  const Int64Max: int := 0x7fff_ffff_ffff_ffff
  const Uint64Max: int := 0xffff_ffff_ffff_ffff

  predicate IsInt64(i: int) { Int64Min <= i <= Int64Max }

  predicate ValidBase(base: int) { 2 <= base <= 36 }

  /** The digit for `d`: '0'-'9', then lower-case 'a'-'z'. */
  function DigitChar(d: nat): (c: char)
    requires d < 36
    ensures d < 10 ==> '0' <= c <= '9'
    ensures d >= 10 ==> 'a' <= c <= 'z'
  {
    if d < 10 then (('0' as int) + d) as char else (('a' as int) + d - 10) as char
  }

  /** The value of a digit in any letter case, as strconv reads it. */
  function DigitValue(c: char): (r: Option<nat>)
    ensures r.Some? ==> r.value < 36
  {
    if '0' <= c <= '9' then Some(c as int - '0' as int)
    else if 'a' <= c <= 'z' then Some(c as int - 'a' as int + 10)
    else if 'A' <= c <= 'Z' then Some(c as int - 'A' as int + 10)
    else None
  }

  lemma DigitRoundTrip(d: nat)
    requires d < 36
    ensures DigitValue(DigitChar(d)) == Some(d)
  {
  }

  /** The digits of `n` in `base`, most significant first, without leading
      zeros ("0" for zero). */
  function FormatNat(n: nat, base: nat): (s: string)
    requires ValidBase(base)
    ensures |s| >= 1
    ensures forall i :: 0 <= i < |s| ==> ('0' <= s[i] <= '9' || 'a' <= s[i] <= 'z')
    decreases n
  {
    if n < base then [DigitChar(n)]
    else
      QuotientSmaller(n, base);
      FormatNat(n / base, base) + [DigitChar(n % base)]
  }

  lemma QuotientSmaller(n: nat, base: nat)
    requires 2 <= base <= n
    ensures 1 <= n / base < n
  {
  }

  /** strconv.FormatInt: a leading '-' for negative values, no base prefix. */
  function FormatInt(i: int, base: nat): (s: string)
    requires ValidBase(base)
    ensures |s| >= 1 && (i < 0 <==> s[0] == '-')
  {
    if i < 0 then "-" + FormatNat(-i, base) else FormatNat(i, base)
  }

  datatype NumError = ErrSyntax | ErrRange | ErrBase

  /** The digit loop of strconv.ParseUint: digits are read from the left;
      an invalid digit is a syntax error and a value above the unsigned
      64-bit maximum stops the loop with a range error at once. */
  function ParseDigits(s: string, base: nat, acc: nat): (r: Result<nat, NumError>)
    requires ValidBase(base)
    decreases |s|
  {
    if s == [] then Ok(acc)
    else
      var d := DigitValue(s[0]);
      if d.None? || d.value >= base then Err(ErrSyntax)
      else
        var n := Shift(acc, base, d.value);
        if n > Uint64Max then Err(ErrRange) else ParseDigits(s[1..], base, n)
  }

  /** The value after one more digit. */
  function Shift(acc: nat, base: nat, d: nat): nat {
    acc * base + d
  }

  /** strconv.ParseUint with 64 bits: bases 2 to 36, or 0 for a base chosen
      by the prefix ("0b", "0o", "0x" in either case, a lone leading "0"
      for octal, decimal otherwise). */
  function ParseUint(s: string, base: int): Result<nat, NumError> {
    if s == "" then Err(ErrSyntax)
    else if ValidBase(base) then ParseDigits(s, base, 0)
    else if base != 0 then Err(ErrBase)
    else if s[0] != '0' then ParseDigits(s, 10, 0)
    else if |s| >= 3 && (s[1] == 'b' || s[1] == 'B') then ParseDigits(s[2..], 2, 0)
    else if |s| >= 3 && (s[1] == 'o' || s[1] == 'O') then ParseDigits(s[2..], 8, 0)
    else if |s| >= 3 && (s[1] == 'x' || s[1] == 'X') then ParseDigits(s[2..], 16, 0)
    else ParseDigits(s[1..], 8, 0)
  }

  /** strconv.ParseInt with bit size 0 (taken as 64, the size of int on
      64-bit platforms): an optional sign, then ParseUint, then the signed range. */
  function ParseInt(s: string, base: int): (r: Result<int, NumError>)
    ensures r.Ok? ==> IsInt64(r.value)
  {
    if s == "" then Err(ErrSyntax)
    else
      var neg := s[0] == '-';
      var t := if s[0] == '+' || s[0] == '-' then s[1..] else s;
      var un := ParseUint(t, base);
      if un.Err? && un.error != ErrRange then Err(un.error)
      else if un.Err? then Err(ErrRange)
      else if !neg && un.value >= 0x8000_0000_0000_0000 then Err(ErrRange)
      else if neg && un.value > 0x8000_0000_0000_0000 then Err(ErrRange)
      else
        var m: int := un.value;
        Ok(if neg then -m else m)
  }

  /** Reading the last digit after the others. */
  lemma {:induction false} ParseDigitsSnoc(x: string, c: char, base: nat, acc: nat)
    requires ValidBase(base)
    requires ParseDigits(x, base, acc).Ok?
    ensures ParseDigits(x + [c], base, acc) == ParseDigits([c], base, ParseDigits(x, base, acc).value)
    decreases |x|
  {
    if x != [] {
      assert (x + [c])[0] == x[0];
      assert (x + [c])[1..] == x[1..] + [c];
      var d := DigitValue(x[0]);
      var n := Shift(acc, base, d.value);
      assert ParseDigits(x, base, acc) == ParseDigits(x[1..], base, n);
      ParseDigitsSnoc(x[1..], c, base, n);
      assert ParseDigits(x + [c], base, acc) == ParseDigits(x[1..] + [c], base, n);
    }
  }

  /** The digits of `n` read back give `n`. */
  lemma {:induction false} ParseFormatNat(n: nat, base: nat)
    requires ValidBase(base) && n <= Uint64Max
    ensures ParseDigits(FormatNat(n, base), base, 0) == Ok(n)
    decreases n
  {
    if n < base {
      ParseOneDigit(n, base, 0);
    } else {
      var q, r := n / base, n % base;
      DivMod(n, base);
      assert FormatNat(n, base) == FormatNat(q, base) + [DigitChar(r)];
      ParseFormatNat(q, base);
      ParseDigitsSnoc(FormatNat(q, base), DigitChar(r), base, 0);
      ParseOneDigit(r, base, q);
    }
  }

  lemma DivMod(n: nat, base: nat)
    requires ValidBase(base) && n >= base
    ensures n / base < n && n % base < base && Shift(n / base, base, n % base) == n
  {
  }

  /** A single digit `d` after the value `acc`. */
  lemma ParseOneDigit(d: nat, base: nat, acc: nat)
    requires ValidBase(base) && d < base && Shift(acc, base, d) <= Uint64Max
    ensures ParseDigits([DigitChar(d)], base, acc) == Ok(Shift(acc, base, d))
  {
    DigitRoundTrip(d);
    assert [DigitChar(d)][1..] == [];
  }

  /** Every 64-bit value formatted in a base from 2 to 36 parses back to
      itself in that base. */
  lemma ParseFormatInt(i: int, base: nat)
    requires ValidBase(base) && IsInt64(i)
    ensures ParseInt(FormatInt(i, base), base) == Ok(i)
  {
    if i < 0 {
      ParseFormatNat(-i, base);
      assert ("-" + FormatNat(-i, base))[1..] == FormatNat(-i, base);
    } else {
      ParseFormatNat(i, base);
      var s := FormatNat(i, base);
      assert s[0] != '+' && s[0] != '-';
    }
  }

  /** Small cases of the notation. */
  lemma FormatExamples()
    ensures FormatInt(255, 8) == "377"
    ensures FormatInt(255, 10) == "255"
    ensures FormatInt(255, 16) == "ff"
    ensures FormatInt(-10, 16) == "-a"
    ensures FormatInt(0, 2) == "0"
  {
  }

  lemma FormatBinary()
    ensures FormatInt(10, 2) == "1010"
  {
  }

  /** Parsing rejects what strconv rejects: the empty string, a lone sign,
      a digit too large for the base and an invalid base. */
  lemma ParseErrors()
    ensures ParseInt("", 10) == Err(ErrSyntax)
    ensures ParseInt("-", 10) == Err(ErrSyntax)
    ensures ParseInt("2", 2) == Err(ErrSyntax)
    ensures ParseInt("7", 1) == Err(ErrBase)
  {
  }

  /** With base 0 the prefix chooses the base. */
  lemma ParsePrefixes()
    ensures ParseInt("0x1F", 0) == Ok(31)
    ensures ParseInt("017", 0) == Ok(15)
  {
    HexDigits();
    OctalDigits();
  }

  lemma HexDigits()
    ensures ParseUint("0x1F", 0) == Ok(31)
  {
    assert "0x1F"[2..] == "1F" && "1F"[1..] == "F" && "F"[1..] == [];
    assert DigitValue('1') == Some(1) && DigitValue('F') == Some(15);
    assert ParseDigits("1F", 16, 0) == ParseDigits("F", 16, 1);
  }

  lemma OctalDigits()
    ensures ParseUint("017", 0) == Ok(15)
  {
    assert "017"[1..] == "17" && "17"[1..] == "7" && "7"[1..] == [];
    assert ParseDigits("17", 8, 0) == ParseDigits("7", 8, 1);
  }

  /** The signed range: magnitudes from 2^63 up are out of range without a
      sign, and above 2^63 with a minus sign; -2^63 itself is in range. */
  lemma ParseRange(n: nat, base: nat)
    requires ValidBase(base) && 0x8000_0000_0000_0000 <= n <= Uint64Max
    ensures ParseInt(FormatNat(n, base), base) == Err(ErrRange)
    ensures n > 0x8000_0000_0000_0000 ==> ParseInt("-" + FormatNat(n, base), base) == Err(ErrRange)
    ensures n == 0x8000_0000_0000_0000 ==> ParseInt("-" + FormatNat(n, base), base) == Ok(Int64Min)
  {
    ParseFormatNat(n, base);
    assert ("-" + FormatNat(n, base))[1..] == FormatNat(n, base);
  }
}

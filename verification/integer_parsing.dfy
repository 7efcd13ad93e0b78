/** The text-to-integer conversion behind `parameter_integer::set`:
    `std::stoll` for signed cells and `std::stoull` for unsigned ones, both
    following `strtoll`/`strtoull` (C11 section 7.22.1.4): leading white space,
    an optional sign, in base 16 an optional `0x` or `0X`, then the longest
    run of digits valid in the base; the characters after that run are
    ignored. No digits is `std::invalid_argument`, a value outside the result
    type is `std::out_of_range`. */
module IntegerParsing {
  import opened Options

  const I64_MIN: int := -0x8000_0000_0000_0000
  const I64_MAX: int := 0x7FFF_FFFF_FFFF_FFFF
  const U64_MAX: int := 0xFFFF_FFFF_FFFF_FFFF
  const TWO_TO_64: int := 0x1_0000_0000_0000_0000

  /** The two exceptions `std::stoll` and `std::stoull` throw. */
  datatype ConvError = InvalidArgument | OutOfRange

  datatype Result<T> = Ok(value: T) | Err(error: ConvError)

  /** A literal as `strtoll` splits it: its sign and its maximal digit run. */
  datatype Literal = Literal(negative: bool, digits: string)

  /** `isspace` in the "C" locale: space, and '\t' '\n' '\v' '\f' '\r'. */
  predicate IsSpace(c: char) {
    c == ' ' || 9 <= c as int <= 13
  }

  /** The digit value of `c` in any base up to 36, and 36 for a character
      that is a digit in no base. */
  function DigitValue(c: char): (d: nat)
    ensures d <= 36
  {
    if '0' <= c <= '9' then (c as int) - ('0' as int)
    else if 'a' <= c <= 'z' then (c as int) - ('a' as int) + 10
    else if 'A' <= c <= 'Z' then (c as int) - ('A' as int) + 10
    else 36
  }

  /** The lower-case digit character of value `d`. */
  function DigitChar(d: nat): (c: char)
    requires d < 36
    ensures DigitValue(c) == d
  {
    if d < 10 then ('0' as int + d) as char else ('a' as int + d - 10) as char
  }

  predicate AllDigits(s: string, base: nat) {
    forall i :: 0 <= i < |s| ==> DigitValue(s[i]) < base
  }

  /** Number of leading white-space characters of `s`. */
  function SpaceRun(s: string): (n: nat)
    ensures n <= |s|
    ensures forall i :: 0 <= i < n ==> IsSpace(s[i])
    ensures n < |s| ==> !IsSpace(s[n])
  {
    if s == [] || !IsSpace(s[0]) then 0 else 1 + SpaceRun(s[1..])
  }

  /** Length of the longest prefix of `s` made of digits in `base`. */
  function DigitRun(s: string, base: nat): (n: nat)
    ensures n <= |s|
    ensures AllDigits(s[..n], base)
    ensures n < |s| ==> DigitValue(s[n]) >= base
  {
    if s == [] || DigitValue(s[0]) >= base then 0
    else
      var n := 1 + DigitRun(s[1..], base);
      assert s[..n] == [s[0]] + s[1..][..n - 1];
      n
  }

  /** The value of a digit string, most significant digit first. */
  function DigitsValue(ds: string, base: nat): nat
  {
    if ds == [] then 0
    else DigitsValue(ds[..|ds| - 1], base) * base + DigitValue(ds[|ds| - 1])
  }

  /** In base 16 an optional `0x` or `0X` may precede the digits; it is
      skipped only when a hexadecimal digit follows it, otherwise the `0`
      alone is the digit run. */
  function HexPrefix(u: string, base: nat): (k: nat)
    ensures k == 0 || k == 2
    ensures k <= |u|
  {
    if base == 16 && |u| > 2 && u[0] == '0' && (u[1] == 'x' || u[1] == 'X') && DigitValue(u[2]) < 16 then 2 else 0
  }

  /** Splits `s` into sign and digit run; `None` when there is no digit. */
  function SplitLiteral(s: string, base: nat): (r: Option<Literal>)
    ensures r.Some? ==> r.value.digits != [] && AllDigits(r.value.digits, base)
  {
    var t := s[SpaceRun(s)..];
    var negative := |t| > 0 && t[0] == '-';
    var u0 := if |t| > 0 && (t[0] == '-' || t[0] == '+') then t[1..] else t;
    var u := u0[HexPrefix(u0, base)..];
    var n := DigitRun(u, base);
    if n == 0 then None else Some(Literal(negative, u[..n]))
  }


  /** `std::stoll(s, nullptr, base)`. */
  function StoLL(s: string, base: nat): (r: Result<int>)
    requires 2 <= base <= 36
    ensures r.Ok? ==> I64_MIN <= r.value <= I64_MAX
    ensures r == Err(InvalidArgument) <==> SplitLiteral(s, base).None?
  {
    match SplitLiteral(s, base)
    case None => Err(InvalidArgument)
    case Some(lit) =>
      var m: int := DigitsValue(lit.digits, base);
      var v := if lit.negative then -m else m;
      if I64_MIN <= v <= I64_MAX then Ok(v) else Err(OutOfRange)
  }

  /** `std::stoull(s, nullptr, base)`: a '-' sign negates modulo 2^64. */
  function StoULL(s: string, base: nat): (r: Result<int>)
    requires 2 <= base <= 36
    ensures r.Ok? ==> 0 <= r.value <= U64_MAX
    ensures r == Err(InvalidArgument) <==> SplitLiteral(s, base).None?
    ensures r == Err(OutOfRange) <==>
              SplitLiteral(s, base).Some? && DigitsValue(SplitLiteral(s, base).value.digits, base) > U64_MAX
  {
    match SplitLiteral(s, base)
    case None => Err(InvalidArgument)
    case Some(lit) =>
      var m := DigitsValue(lit.digits, base);
      if m > U64_MAX then Err(OutOfRange)
      else if lit.negative && m != 0 then Ok(TWO_TO_64 - m)
      else Ok(m)
  }

  /** The conversion of an unsigned 64-bit value to the cell's `i64` field
      (two's complement wrap-around). */
  function ToI64(u: int): (v: int)
    requires 0 <= u <= U64_MAX
    ensures I64_MIN <= v <= I64_MAX
    ensures (v - u) % TWO_TO_64 == 0
    ensures u <= I64_MAX ==> v == u
  {
    if u <= I64_MAX then u else u - TWO_TO_64
  }

  /** What `parameter_integer::set` stores, or the exception it lets escape. */
  function ConvertInteger(s: string, base: nat, isSigned: bool): (r: Result<int>)
    requires 2 <= base <= 36
    ensures r.Ok? ==> I64_MIN <= r.value <= I64_MAX
  {
    if isSigned then StoLL(s, base)
    else match StoULL(s, base)
      case Ok(u) => Ok(ToI64(u))
      case Err(e) => Err(e)
  }

  // ----- A reference formatter, the partner of the parser -----

  /** The digits of `m` in `base`, most significant first, no leading zero. */
  function Digits(m: nat, base: nat): string
    requires 2 <= base <= 36
    decreases m
  {
    if m < base then [DigitChar(m)]
    else
      DivMod(m, base);
      Digits(m / base, base) + [DigitChar(m % base)]
  }

  /** `n` written in `base` with a '-' when negative. */
  function Format(n: int, base: nat): string
    requires 2 <= base <= 36
  {
    if n < 0 then "-" + Digits(-n, base) else Digits(n, base)
  }

  /** The formatter writes a non-empty run of digits whose value is `m`. */
  lemma DigitsSound(m: nat, base: nat)
    requires 2 <= base <= 36
    ensures Digits(m, base) != []
    ensures AllDigits(Digits(m, base), base)
    ensures DigitsValue(Digits(m, base), base) == m
  {
    DigitsValid(m, base);
    DigitsValueOf(m, base);
  }

  lemma {:induction false} DigitsValid(m: nat, base: nat)
    requires 2 <= base <= 36
    ensures Digits(m, base) != [] && AllDigits(Digits(m, base), base)
    decreases m
  {
    if m >= base {
      DivMod(m, base);
      DigitsValid(m / base, base);
      AllDigitsPush(Digits(m / base, base), m % base, base);
    }
  }

  lemma AllDigitsPush(prefix: string, d: nat, base: nat)
    requires d < base <= 36 && AllDigits(prefix, base)
    ensures AllDigits(prefix + [DigitChar(d)], base)
  {
    var ds := prefix + [DigitChar(d)];
    assert forall i :: 0 <= i < |prefix| ==> ds[i] == prefix[i];
  }

  lemma {:induction false} DigitsValueOf(m: nat, base: nat)
    requires 2 <= base <= 36
    ensures DigitsValue(Digits(m, base), base) == m
    decreases m
  {
    if m < base {
      var ds := [DigitChar(m)];
      assert ds[..|ds| - 1] == [];
    } else {
      DivMod(m, base);
      var q, r := m / base, m % base;
      DigitsValueOf(q, base);
      DigitsPush(Digits(q, base), r, base);
    }
  }

  /** Writing one more digit multiplies the value by the base and adds it. */
  lemma DigitsPush(prefix: string, d: nat, base: nat)
    requires d < 36
    ensures DigitsValue(prefix + [DigitChar(d)], base) == DigitsValue(prefix, base) * base + d
  {
    var ds := prefix + [DigitChar(d)];
    assert ds[..|ds| - 1] == prefix;
  }

  lemma DivMod(m: nat, base: nat)
    requires 2 <= base
    ensures m == (m / base) * base + m % base && m % base < base
    ensures m >= base ==> m / base < m
  {
  }

  /** A string made only of digits is its own digit run. */
  lemma {:induction false} DigitRunAll(u: string, base: nat)
    requires AllDigits(u, base)
    ensures DigitRun(u, base) == |u|
  {
    if u != [] {
      DigitRunAll(u[1..], base);
    }
  }

  /** Parsing the formatted text gives back the literal it was built from. */
  lemma SplitFormat(n: int, base: nat)
    requires 2 <= base <= 36
    ensures SplitLiteral(Format(n, base), base) == Some(Literal(n < 0, Digits(if n < 0 then -n else n, base)))
  {
    var m := if n < 0 then -n else n;
    var ds := Digits(m, base);
    DigitsSound(m, base);
    DigitRunAll(ds, base);
    var s := Format(n, base);
    assert DigitValue(ds[0]) < base;
    assert s[0] == '-' || s[0] == ds[0];
    assert SpaceRun(s) == 0;
    var t := s[SpaceRun(s)..];
    assert t == s;
    var u0 := if |t| > 0 && (t[0] == '-' || t[0] == '+') then t[1..] else t;
    assert u0 == ds;
    DigitsNoPrefix(m, base);
    assert u0[HexPrefix(u0, base)..] == ds;
    assert ds[..|ds|] == ds;
  }

  /** The formatter never writes a leading zero before other digits, so
      its output never starts with a `0x` prefix. */
  lemma DigitsNoPrefix(m: nat, base: nat)
    requires 2 <= base <= 36
    ensures HexPrefix(Digits(m, base), base) == 0
  {
    DigitsLead(m, base);
  }

  lemma {:induction false} DigitsLead(m: nat, base: nat)
    requires 2 <= base <= 36
    ensures |Digits(m, base)| > 1 ==> Digits(m, base)[0] != '0'
    decreases m
  {
    if m >= base {
      DivMod(m, base);
      var q := m / base;
      var ds := Digits(q, base);
      assert Digits(m, base)[0] == ds[0] by {
        DigitsValid(q, base);
      }
      if q < base {
        assert DigitValue(ds[0]) == q != 0;
      } else {
        DivMod(q, base);
        DigitsValid(q / base, base);
        DigitsLead(q, base);
      }
    }
  }

  /** Round trip: `stoll` reads back any formatted 64-bit signed value. */
  lemma StoLLFormat(n: int, base: nat)
    requires 2 <= base <= 36
    requires I64_MIN <= n <= I64_MAX
    ensures StoLL(Format(n, base), base) == Ok(n)
  {
    SplitFormat(n, base);
    DigitsSound(if n < 0 then -n else n, base);
  }

  /** `stoull` negates a '-' literal modulo 2^64 and reads any other as its
      value. */
  lemma StoULLNegation(s: string, base: nat)
    requires 2 <= base <= 36
    ensures StoULL(s, base).Ok? ==>
              var lit := SplitLiteral(s, base).value;
              var m := DigitsValue(lit.digits, base);
              StoULL(s, base).value == if lit.negative then (TWO_TO_64 - m) % TWO_TO_64 else m
  {
  }

  /** Round trip: `stoull` reads back any formatted 64-bit unsigned value. */
  lemma StoULLFormat(u: int, base: nat)
    requires 2 <= base <= 36
    requires 0 <= u <= U64_MAX
    ensures StoULL(Format(u, base), base) == Ok(u)
  {
    SplitFormat(u, base);
    DigitsSound(u, base);
  }

  /** Round trip through an unsigned cell: `stoull` reads a formatted
      negative `i64` as its two's complement, and storing that in the `i64`
      field gives the number back. */
  lemma UnsignedRoundTrip(n: int, base: nat)
    requires 2 <= base <= 36
    requires I64_MIN <= n <= I64_MAX
    ensures ConvertInteger(Format(n, base), base, false) == Ok(n)
  {
    if n < 0 {
      StoULLFormatNegative(n, base);
    } else {
      StoULLFormat(n, base);
    }
  }

  /** `stoull` reads a formatted negative `i64` as `2^64` plus it. */
  lemma StoULLFormatNegative(n: int, base: nat)
    requires 2 <= base <= 36
    requires I64_MIN <= n < 0
    ensures StoULL(Format(n, base), base) == Ok(TWO_TO_64 + n)
  {
    var m: nat := -n;
    var s := Format(n, base);
    SplitFormat(n, base);
    DigitsSound(m, base);
    StoULLNegative(s, base, m);
  }

  lemma StoULLNegative(s: string, base: nat, m: nat)
    requires 2 <= base <= 36
    requires SplitLiteral(s, base).Some? && SplitLiteral(s, base).value.negative
    requires DigitsValue(SplitLiteral(s, base).value.digits, base) == m
    requires 0 < m <= U64_MAX
    ensures StoULL(s, base) == Ok(TWO_TO_64 - m)
  {
  }

  /** In base 16 a `0x` prefix is skipped when a digit follows it. */
  lemma HexPrefixSkipped()
    ensures StoLL("0x1f", 16) == Ok(31)
  {
    var s := "0x1f";
    assert SpaceRun(s) == 0;
    assert s[0..] == s;
    assert HexPrefix(s, 16) == 2;
    assert s[2..] == "1f";
    assert DigitRun("1f", 16) == 2;
    assert "1f"[..2] == "1f";
    assert SplitLiteral(s, 16) == Some(Literal(false, "1f"));
    assert DigitsValue("1f", 16) == 31 by {
      assert "1f"[..1] == "1" && "1"[..0] == "";
    }
  }

  /** With no digit after it, the `0x` is not a prefix: the `0` is the whole
      literal; and in any other base the `x` ends the digits. */
  lemma HexPrefixAlone()
    ensures StoLL("0xg", 16) == Ok(0)
    ensures StoLL("0x1f", 10) == Ok(0)
  {
    assert SpaceRun("0xg") == 0 && "0xg"[0..] == "0xg";
    assert HexPrefix("0xg", 16) == 0;
    assert DigitRun("0xg", 16) == 1;
    assert "0xg"[..1] == "0";
    assert SpaceRun("0x1f") == 0 && "0x1f"[0..] == "0x1f";
    assert HexPrefix("0x1f", 10) == 0;
    assert DigitRun("0x1f", 10) == 1;
    assert "0x1f"[..1] == "0";
    assert DigitsValue("0", 16) == 0 && DigitsValue("0", 10) == 0 by {
      assert "0"[..0] == "";
    }
  }

  /** A signed cell's conversion fails exactly when `stoll` finds no digits
      or the literal's value leaves the `i64` range. */
  lemma StoLLFailure(s: string, base: nat)
    requires 2 <= base <= 36
    ensures StoLL(s, base).Err? <==>
      (SplitLiteral(s, base).None? ||
       var lit := SplitLiteral(s, base).value;
       var m: int := DigitsValue(lit.digits, base);
       !(I64_MIN <= (if lit.negative then -m else m) <= I64_MAX))
  {
  }
}

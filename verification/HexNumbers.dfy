/** Chunk sizes: lower-case hexadecimal out, `strtoul` in. */
module HexNumbers {
  const ULONG_MAX: nat := 0xFFFF_FFFF_FFFF_FFFF

  function Digit(d: nat): char
    requires d < 16
  {
    "0123456789abcdef"[d]
  }

  /** Positional notation, most significant digit first. */
  function Hex(n: nat): string {
    (if n < 16 then "" else Hex(n / 16)) + [Digit(n % 16)]
  }

  lemma HexSplits(m: nat, ret: string)
    requires m > 0
    ensures Hex(m) + ret == (if m / 16 > 0 then Hex(m / 16) else "") + ([Digit(m % 16)] + ret)
  {
    hide Digit;
  }

  /** `from_i_to_hex`: digits are put in front, lowest first, at least once. */
  method FromIToHex(n: nat) returns (ret: string)
    ensures ret == Hex(n)
  {
    hide Digit;
    ret := [Digit(n % 16)];
    var m := n / 16;
    while m > 0
      invariant Hex(n) == (if m > 0 then Hex(m) else "") + ret
    {
      HexSplits(m, ret);
      ret := [Digit(m % 16)] + ret;
      m := m / 16;
    }
  }

  function DigitValue(c: char): (v: int)
    ensures -1 <= v < 16
  {
    if '0' <= c <= '9' then c as int - '0' as int
    else if 'a' <= c <= 'f' then c as int - 'a' as int + 10
    else if 'A' <= c <= 'F' then c as int - 'A' as int + 10
    else -1
  }

  predicate IsHex(c: char) { DigitValue(c) >= 0 }

  predicate IsSpace(c: char) { c == ' ' || 9 <= c as int <= 13 }

  function SkipSpace(s: string): string {
    if |s| > 0 && IsSpace(s[0]) then SkipSpace(s[1..]) else s
  }

  /** A leading `0x` counts as a prefix only before a digit. */
  function SkipPrefix(s: string): string {
    if |s| >= 3 && s[0] == '0' && s[1] in "xX" && IsHex(s[2]) then s[2..] else s
  }

  /** The value of the digits in front, after those that made `v`. */
  function Value(s: string, v: nat): nat {
    if |s| > 0 && IsHex(s[0]) then Value(s[1..], v * 16 + DigitValue(s[0])) else v
  }

  datatype Number = NoDigits | Number(value: nat)

  /** `strtoul(s, &end, 16)` for a 64-bit `unsigned long`: white space, a sign, a prefix, digits.  A sign
      of minus negates modulo 2^64; a value too large gives ULONG_MAX. */
  function StrToUl(s: string): (n: Number)
    ensures n.Number? ==> n.value <= ULONG_MAX
  {
    var t := SkipSpace(s);
    var minus := |t| > 0 && t[0] == '-';
    var u := SkipPrefix(if |t| > 0 && t[0] in "+-" then t[1..] else t);
    if |u| == 0 || !IsHex(u[0]) then NoDigits
    else
      var v := Value(u, 0);
      Number(if v > ULONG_MAX then ULONG_MAX else if minus && v > 0 then ULONG_MAX + 1 - v else v)
  }

  lemma DigitIs(d: nat)
    requires d < 16
    ensures DigitValue(Digit(d)) == d && !IsSpace(Digit(d)) && Digit(d) !in "+-\n\0" && (Digit(d) == '0' <==> d == 0)
  {
  }

  lemma {:induction false} HexIsDigits(n: nat)
    ensures |Hex(n)| > 0 && (forall k :: 0 <= k < |Hex(n)| ==> IsHex(Hex(n)[k]) && !IsSpace(Hex(n)[k]))
    ensures forall k :: 0 <= k < |Hex(n)| ==> Hex(n)[k] !in "+-\n\0"
    ensures n < 16 ==> |Hex(n)| == 1
    ensures Hex(n)[0] == '0' <==> n == 0
  {
    hide Digit, DigitValue;
    DigitIs(n % 16);
    if n >= 16 {
      HexIsDigits(n / 16);
    }
  }

  lemma {:induction false} ValueOfDigits(a: string, b: string, v: nat)
    requires forall k :: 0 <= k < |a| ==> IsHex(a[k])
    ensures Value(a + b, v) == Value(b, Value(a, v))
  {
    if |a| > 0 {
      assert (a + b)[1..] == a[1..] + b;
      ValueOfDigits(a[1..], b, v * 16 + DigitValue(a[0]));
    } else {
      assert a + b == b;
    }
  }

  /** Whatever follows the digits, reading them gives the number back. */
  lemma {:induction false} ValueOfHex(n: nat, rest: string)
    requires |rest| > 0 ==> !IsHex(rest[0])
    ensures Value(Hex(n) + rest, 0) == n
  {
    hide Digit, DigitValue;
    DigitIs(n % 16);
    var d := [Digit(n % 16)];
    if n < 16 {
      assert Hex(n) + rest == d + rest;
      assert (d + rest)[1..] == rest;
    } else {
      var h := Hex(n / 16);
      HexIsDigits(n / 16);
      assert Hex(n) + rest == h + (d + rest);
      ValueOfDigits(h, d + rest, 0);
      ValueOfHex(n / 16, "");
      assert h + "" == h;
      assert (d + rest)[1..] == rest;
    }
  }

  /** `strtoul` undoes `from_i_to_hex` for every size below ULONG_MAX, whatever follows the digits. */
  lemma HexRoundTrip(n: nat, rest: string)
    requires n <= ULONG_MAX && (|rest| > 0 ==> !IsHex(rest[0]) && rest[0] !in "xX")
    ensures StrToUl(Hex(n) + rest) == Number(n)
  {
    HexIsDigits(n);
    var s := Hex(n) + rest;
    assert s[0] == Hex(n)[0];
    if n == 0 {
      assert |Hex(n)| == 1 && (|s| >= 2 ==> s[1] == rest[0]);
    }
    ValueOfHex(n, rest);
  }

  // ----- what strtoul reads, whoever wrote it -----

  const LOWER := "0123456789abcdef"
  const UPPER := "0123456789ABCDEF"

  predicate DigitOf(c: char, v: nat) { v < 16 && (c == LOWER[v] || c == UPPER[v]) }

  /** A digit is a character of one of the two rows, and its value is its place there. */
  lemma DigitExactly(c: char, v: nat)
    ensures DigitOf(c, v) <==> DigitValue(c) == v
  {
  }

  predicate NoDigit(c: char) { forall v :: 0 <= v < 16 ==> c != LOWER[v] && c != UPPER[v] }

  lemma NoDigitExactly(c: char)
    ensures NoDigit(c) <==> DigitValue(c) == -1
  {
    assert forall v :: 0 <= v < 16 ==> DigitValue(LOWER[v]) == v && DigitValue(UPPER[v]) == v;
    if DigitValue(c) >= 0 {
      DigitExactly(c, DigitValue(c));
    }
  }

  /** `vs` are the values of the digits, most significant first. */
  predicate Digits(s: string, vs: seq<nat>) {
    |s| == |vs| && forall i :: 0 <= i < |s| ==> DigitOf(s[i], vs[i])
  }

  /** Their value in base 16. */
  function InBase16(vs: seq<nat>): nat {
    if |vs| == 0 then 0 else 16 * InBase16(vs[..|vs| - 1]) + vs[|vs| - 1]
  }

  lemma {:induction false} ValueIs(s: string, vs: seq<nat>, rest: string)
    requires Digits(s, vs) && (|rest| > 0 ==> NoDigit(rest[0]))
    ensures Value(s + rest, 0) == InBase16(vs)
  {
    hide DigitOf, NoDigit;
    AreDigits(s, vs);
    ValueOfDigits(s, rest, 0);
    if |rest| > 0 {
      NoDigitExactly(rest[0]);
    }
    OnlyDigits(s, vs);
  }

  lemma AreDigits(s: string, vs: seq<nat>)
    requires Digits(s, vs)
    ensures forall k :: 0 <= k < |s| ==> IsHex(s[k]) && DigitValue(s[k]) == vs[k]
  {
    hide DigitOf;
    forall k | 0 <= k < |s| ensures DigitValue(s[k]) == vs[k] {
      DigitExactly(s[k], vs[k]);
    }
  }

  lemma {:induction false} OnlyDigits(s: string, vs: seq<nat>)
    requires Digits(s, vs)
    ensures Value(s, 0) == InBase16(vs)
  {
    hide DigitOf, DigitValue;
    AreDigits(s, vs);
    if |s| > 0 {
      var n := |s| - 1;
      OnlyDigits(s[..n], vs[..n]);
      assert s == s[..n] + s[n..];
      ValueOfDigits(s[..n], s[n..], 0);
      assert s[n..][1..] == "";
    }
  }

  predicate White(c: char) { c == ' ' || c == '\t' || c as int == 10 || c as int == 11 || c as int == 12 ||
    c as int == 13 }

  lemma {:induction false} SkipsWhite(w: string, t: string)
    requires (forall i :: 0 <= i < |w| ==> White(w[i])) && (t != "" ==> !White(t[0]))
    ensures SkipSpace(w + t) == t
  {
    if w == "" {
      assert w + t == t;
    } else {
      assert (w + t)[1..] == w[1..] + t;
      SkipsWhite(w[1..], t);
    }
  }

  predicate Sign(s: string) { s == "" || s == "+" || s == "-" }

  predicate Prefix(s: string) { s == "" || s == "0x" || s == "0X" }

  /** What `strtoul` with base 16 accepts: white space, a sign, a prefix, digits in either case, with leading zeros or
      not, up to the first character that is no digit.  The value is positional; one that does not fit gives ULONG_MAX,
      and a minus sign negates it modulo 2^64. */
  lemma StrToUlIs(white: string, sign: string, prefix: string, digits: string, vs: seq<nat>, rest: string)
    requires (forall i :: 0 <= i < |white| ==> White(white[i])) && Sign(sign) && Prefix(prefix)
    requires Digits(digits, vs) && digits != "" && (rest != "" ==> NoDigit(rest[0]))
    requires digits == "0" && prefix == "" && |rest| >= 2 && (rest[0] == 'x' || rest[0] == 'X') ==> NoDigit(rest[1])
    ensures var v := InBase16(vs);
      StrToUl(white + (sign + (prefix + (digits + rest)))) ==
        Number(if v >= 0x1_0000_0000_0000_0000 then 0xFFFF_FFFF_FFFF_FFFF
               else if sign == "-" && v > 0 then 0x1_0000_0000_0000_0000 - v else v)
  {
    hide Value, DigitValue, White, DigitOf, NoDigit, SkipSpace;
    var w := digits + rest;
    var u := prefix + w;
    var t := sign + u;
    AreDigits(digits, vs);
    ValueIs(digits, vs, rest);
    DigitsBegin(digits[0]);
    assert w[0] == digits[0];
    assert t[0] == if sign != "" then sign[0] else if prefix != "" then '0' else w[0];
    NotWhite(t[0]);
    SkipsWhite(white, t);
    assert if sign != "" then t[1..] == u else t == u;
    assert sign != "" <==> t[0] in "+-";
    PrefixSkipped(prefix, digits, rest);
  }

  lemma DigitsBegin(c: char)
    requires IsHex(c)
    ensures c != '+' && c != '-' && !White(c)
  {
  }

  lemma NotWhite(c: char)
    requires c == '+' || c == '-' || c == '0' || IsHex(c)
    ensures !White(c)
  {
  }

  lemma PrefixSkipped(prefix: string, digits: string, rest: string)
    requires Prefix(prefix) && digits != "" && (forall k :: 0 <= k < |digits| ==> IsHex(digits[k]))
    requires digits == "0" && prefix == "" && |rest| >= 2 && (rest[0] == 'x' || rest[0] == 'X') ==> NoDigit(rest[1])
    ensures SkipPrefix(prefix + (digits + rest)) == digits + rest
  {
    var s := prefix + (digits + rest);
    if prefix == "" {
      assert s == digits + rest;
      if |digits| == 1 && |rest| >= 2 {
        assert s[1] == rest[0] && s[2] == rest[1];
        NoDigitExactly(rest[1]);
      } else if |digits| >= 2 {
        assert IsHex(digits[1]);
      }
    } else {
      assert s[2..] == digits + rest && s[2] == digits[0];
    }
  }

  /** Without a digit where one is needed there is no number. */
  lemma NoNumber(white: string, sign: string, rest: string)
    requires (forall i :: 0 <= i < |white| ==> White(white[i])) && Sign(sign)
    requires rest == "" || (NoDigit(rest[0]) && (sign == "" ==> rest[0] != '+' && rest[0] != '-' && !White(rest[0])))
    ensures StrToUl(white + (sign + rest)) == NoDigits
  {
    hide Value, White, SkipSpace;
    var t := sign + rest;
    assert t != "" ==> t[0] == if sign != "" then sign[0] else rest[0];
    if sign != "" {
      NotWhite(sign[0]);
      assert t[1..] == rest;
    }
    SkipsWhite(white, t);
    assert sign == "" ==> t == rest;
    if rest != "" {
      NoDigitExactly(rest[0]);
      assert rest[0] != '0' by { ZeroIsDigit(); }
    }
  }

  lemma ZeroIsDigit()
    ensures !NoDigit('0')
  {
    assert LOWER[0] == '0';
  }

  /** The digits written are lower case, without leading zeros, and their value is the number. */
  lemma {:induction false} HexIs(n: nat) returns (vs: seq<nat>)
    ensures |vs| == |Hex(n)| && (forall i :: 0 <= i < |vs| ==> vs[i] < 16 && Hex(n)[i] == LOWER[vs[i]])
    ensures InBase16(vs) == n && (n > 0 ==> vs[0] > 0) && (n == 0 ==> vs == [0])
  {
    hide Digit;
    LowerDigit(n % 16);
    if n < 16 {
      vs := [n];
      assert vs[..0] == [];
    } else {
      var us := HexIs(n / 16);
      vs := us + [n % 16];
      assert vs[..|us|] == us;
    }
  }

  lemma LowerDigit(d: nat)
    requires d < 16
    ensures Digit(d) == LOWER[d]
  {
  }
}

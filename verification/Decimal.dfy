/** Printing and parsing of the strings the program uses as ring members and hash keys. */
module Decimal {
  import opened Basics

  function Digit(d: int): char
    requires 0 <= d < 10
  {
    ('0' as int + d) as char
  }

  predicate IsDigit(c: char) {
    '0' <= c <= '9'
  }

  predicate AllDigits(s: string) {
    forall i :: 0 <= i < |s| ==> IsDigit(s[i])
  }

  /** The "%d" verb on a non-negative integer. */
  function Fmt(n: nat): (s: string) {
    if n < 10 then [Digit(n)] else Fmt(n / 10) + [Digit(n % 10)]
  }

  /** The value of a run of decimal digits, most significant first. */
  function DigitsValue(s: string): nat
    requires AllDigits(s)
  {
    if s == "" then 0
    else 10 * DigitsValue(s[..|s| - 1]) + (s[|s| - 1] as int - '0' as int)
  }

  /** strconv.Atoi for an int whose largest value is intMax: an optional sign, then at least one digit, in range. */
  function Atoi(s: string, intMax: nat): Option<int> {
    var signed := s != "" && (s[0] == '-' || s[0] == '+');
    var digits := if signed then s[1..] else s;
    if digits == "" || !AllDigits(digits) then None
    else
      var v: int := DigitsValue(digits);
      if signed && s[0] == '-' then (if v <= intMax + 1 then Some(0 - v) else None)
      else if v <= intMax then Some(v) else None
  }

  lemma {:induction false} FmtIsDigits(n: nat)
    ensures Fmt(n) != "" && AllDigits(Fmt(n)) && DigitsValue(Fmt(n)) == n
  {
    if n >= 10 {
      FmtIsDigits(n / 10);
      assert Fmt(n)[..|Fmt(n)| - 1] == Fmt(n / 10);
    } else {
      assert Fmt(n)[..|Fmt(n)| - 1] == "";
    }
  }

  /** Parsing a printed id gives it back exactly when the id fits the platform's int, and fails otherwise. */
  lemma AtoiOfFmt(n: nat, intMax: nat)
    ensures Atoi(Fmt(n), intMax) == if n <= intMax then Some(n) else None
  {
    FmtIsDigits(n);
    assert IsDigit(Fmt(n)[0]);
  }

  lemma FmtInjective(a: nat, b: nat)
    ensures Fmt(a) == Fmt(b) <==> a == b
  {
    FmtIsDigits(a);
    FmtIsDigits(b);
  }

  function HexDigit(d: int): char
    requires 0 <= d < 16
  {
    if d < 10 then ('0' as int + d) as char else ('a' as int + (d - 10)) as char
  }

  /** The "%x" verb on one byte: no leading zero is printed. */
  function HexByte(b: byte): (s: string) {
    if b < 16 then [HexDigit(b)] else [HexDigit(b / 16), HexDigit(b % 16)]
  }

  lemma HexDigitInjective(a: int, b: int)
    requires 0 <= a < 16 && 0 <= b < 16
    ensures HexDigit(a) == HexDigit(b) ==> a == b
    ensures HexDigit(a) != ':' && HexDigit(a) != '.'
  {
  }

  lemma ParsedByExample()
    ensures Atoi("+7", 100) == Some(7) && Atoi("-7", 100) == Some(-7) && Atoi("7", 6) == None
    ensures Atoi("", 100) == None && Atoi("-", 100) == None && Atoi("7x", 100) == None
  {
    assert DigitsValue("7") == 7;
    assert !IsDigit("7x"[1]);
  }

  lemma PrintedByExample()
    ensures Fmt(0) == "0" && Fmt(255) == "255" && Fmt(4010) == "4010"
    ensures HexByte(0) == "0" && HexByte(10) == "a" && HexByte(0x1f) == "1f" && HexByte(0xb0) == "b0"
  {
    assert Fmt(40) == "40" && Fmt(401) == "401" && Fmt(25) == "25";
  }

  /** Text up to the first separator is determined by the whole text. */
  lemma FirstField(a: string, b: string, sep: char, x: string, y: string)
    requires sep !in a && sep !in b
    requires a + [sep] + x == b + [sep] + y
    ensures a == b && x == y
  {
    var s := a + [sep] + x;
    var t := b + [sep] + y;
    assert s[|a|] == sep && t[|b|] == sep;
    assert forall i :: 0 <= i < |a| ==> s[i] == a[i];
    assert forall i :: 0 <= i < |b| ==> t[i] == b[i];
    assert |a| == |b|;
    assert a == s[..|a|] == t[..|b|] == b;
    assert x == s[|a| + 1..] == t[|b| + 1..] == y;
  }

  lemma {:induction false} FmtHasNo(n: nat, c: char)
    requires !IsDigit(c)
    ensures c !in Fmt(n)
  {
    FmtIsDigits(n);
  }
}

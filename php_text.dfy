/** The PHP string built-ins the message logs and the protocols rely on:
    explode/implode on "\n", strpos as a substring test, substr, the (int)
    cast of a string, strlen (UTF-8 bytes) and the decimal rendering of an
    integer, as PHP's string concatenation produces it. */
module PhpText {

  /** explode("\n", s): the pieces between newline characters, in order. */
  function Explode(s: string): (r: seq<string>)
    ensures |r| >= 1
    ensures forall i :: 0 <= i < |r| ==> '\n' !in r[i]
    decreases |s|
  {
    if s == [] then [""]
    else
      var rest := Explode(s[1..]);
      assert s == [s[0]] + s[1..];
      if s[0] == '\n' then [""] + rest
      else [[s[0]] + rest[0]] + rest[1..]
  }

  /** There is always one piece more than there are newlines. */
  lemma {:induction false} ExplodeCount(s: string)
    ensures |Explode(s)| == multiset(s)['\n'] + 1
    decreases |s|
  {
    if s != [] {
      ExplodeCount(s[1..]);
      assert s == [s[0]] + s[1..];
    }
  }

  /** implode("\n", lines). */
  function Implode(lines: seq<string>): string
  {
    if |lines| == 0 then ""
    else if |lines| == 1 then lines[0]
    else lines[0] + "\n" + Implode(lines[1..])
  }

  /** Joining the pieces of a string gives the string back. */
  lemma {:induction false} ImplodeExplode(s: string)
    ensures Implode(Explode(s)) == s
    decreases |s|
  {
    if s != [] {
      var rest := Explode(s[1..]);
      ImplodeExplode(s[1..]);
      if s[0] == '\n' {
        assert Explode(s) == [""] + rest;
        assert (["" ] + rest)[1..] == rest;
      } else {
        assert Explode(s) == [[s[0]] + rest[0]] + rest[1..];
        if |rest| == 1 {
          assert Implode(Explode(s)) == [s[0]] + rest[0];
        } else {
          assert ([[s[0]] + rest[0]] + rest[1..])[1..] == rest[1..];
          assert Implode(rest) == rest[0] + "\n" + Implode(rest[1..]);
        }
      }
    }
  }

  /** A string without newline is a single piece. */
  lemma {:induction false} ExplodeSingle(a: string)
    requires '\n' !in a
    ensures Explode(a) == [a]
    decreases |a|
  {
    if a != [] {
      ExplodeSingle(a[1..]);
      assert [a[0]] + a[1..] == a;
    }
  }

  /** A newline-free piece followed by a newline splits off as the first piece. */
  lemma {:induction false} ExplodeCons(a: string, b: string)
    requires '\n' !in a
    ensures Explode(a + "\n" + b) == [a] + Explode(b)
    decreases |a|
  {
    if a == [] {
      assert a + "\n" + b == "\n" + b;
      assert ("\n" + b)[1..] == b;
    } else {
      var s := a + "\n" + b;
      assert s[1..] == a[1..] + "\n" + b;
      ExplodeCons(a[1..], b);
      assert [a[0]] + a[1..] == a;
    }
  }

  /** Splitting the joined lines gives the lines back, when none of them
      holds a newline. */
  lemma {:induction false} ExplodeImplode(lines: seq<string>)
    requires |lines| >= 1
    requires forall i :: 0 <= i < |lines| ==> '\n' !in lines[i]
    ensures Explode(Implode(lines)) == lines
    decreases |lines|
  {
    if |lines| == 1 {
      ExplodeSingle(lines[0]);
    } else {
      ExplodeImplode(lines[1..]);
      ExplodeCons(lines[0], Implode(lines[1..]));
      assert [lines[0]] + lines[1..] == lines;
    }
  }

  predicate StartsWith(s: string, prefix: string)
  {
    |prefix| <= |s| && s[..|prefix|] == prefix
  }

  /** strpos(s, sub) !== false: sub occurs somewhere in s. */
  predicate Contains(s: string, sub: string)
    decreases |s|
  {
    StartsWith(s, sub) || (|s| > 0 && Contains(s[1..], sub))
  }

  /** A string of which sub is a part contains sub. */
  lemma {:induction false} ContainsInfix(a: string, sub: string, b: string)
    ensures Contains(a + sub + b, sub)
    decreases |a|
  {
    var s := a + sub + b;
    if a == [] {
      assert s[..|sub|] == sub;
    } else {
      assert s[1..] == a[1..] + sub + b;
      ContainsInfix(a[1..], sub, b);
    }
  }

  function Min(a: int, b: int): int { if a <= b then a else b }

  /** substr(s, start, length) for a start and length that are not negative. */
  function Substr(s: string, start: nat, length: nat): (r: string)
    ensures |r| <= length
    ensures start + length <= |s| ==> r == s[start..start + length]
  {
    s[Min(start, |s|)..Min(start + length, |s|)]
  }

  predicate IsDigit(c: char) { '0' <= c <= '9' }

  /** The white space PHP skips before a leading-numeric string. */
  predicate IsSpace(c: char)
  {
    c == ' ' || c == '\t' || c == '\n' || c == '\r' || c == '\U{000B}' || c == '\U{000C}'
  }

  function DigitValue(c: char): int { c as int - '0' as int }

  function Digit(n: nat): (c: char)
    requires n < 10
    ensures IsDigit(c) && DigitValue(c) == n
  {
    ('0' as int + n) as char
  }

  function SkipSpace(s: string): (r: string)
    ensures |r| <= |s|
    ensures r == [] || !IsSpace(r[0])
  {
    if s != [] && IsSpace(s[0]) then SkipSpace(s[1..]) else s
  }

  /** The longest run of digits at the front of s. */
  function DigitRun(s: string): (r: string)
    ensures StartsWith(s, r)
    ensures forall i :: 0 <= i < |r| ==> IsDigit(r[i])
    ensures |r| < |s| ==> !IsDigit(s[|r|])
  {
    if s != [] && IsDigit(s[0]) then [s[0]] + DigitRun(s[1..]) else []
  }

  /** The value of a string of decimal digits, most significant first. */
  function DigitsValue(ds: string): int
  {
    if ds == [] then 0 else DigitsValue(ds[..|ds| - 1]) * 10 + DigitValue(ds[|ds| - 1])
  }

  /** (int) s in PHP 8: leading white space, an optional sign and the digits
      that follow; a string that does not start that way gives 0. */
  function IntCast(s: string): int
  {
    var t := SkipSpace(s);
    if t != [] && t[0] == '-' then -DigitsValue(DigitRun(t[1..]))
    else if t != [] && t[0] == '+' then DigitsValue(DigitRun(t[1..]))
    else DigitsValue(DigitRun(t))
  }

  /** The decimal rendering of a natural number, no leading zeros. */
  function NatToString(n: nat): (r: string)
    ensures |r| >= 1
    ensures forall i :: 0 <= i < |r| ==> IsDigit(r[i])
  {
    if n < 10 then [Digit(n)] else NatToString(n / 10) + [Digit(n % 10)]
  }

  /** The decimal rendering of an integer, as "" . $i gives it. */
  function IntToString(i: int): string
  {
    if i < 0 then "-" + NatToString(-i) else NatToString(i)
  }

  lemma {:induction false} DigitsValueOfDecimal(n: nat)
    ensures DigitsValue(NatToString(n)) == n
  {
    if n >= 10 {
      var s := NatToString(n);
      assert s[..|s| - 1] == NatToString(n / 10);
      DigitsValueOfDecimal(n / 10);
    }
  }

  lemma {:induction false} DigitRunOfDigits(ds: string, rest: string)
    requires forall i :: 0 <= i < |ds| ==> IsDigit(ds[i])
    requires rest == [] || !IsDigit(rest[0])
    ensures DigitRun(ds + rest) == ds
    decreases |ds|
  {
    if ds != [] {
      assert (ds + rest)[1..] == ds[1..] + rest;
      DigitRunOfDigits(ds[1..], rest);
    }
  }

  /** The (int) cast reads back the decimal rendering of n, whatever
      non-digit text follows it. */
  lemma {:induction false} CastOfDecimal(n: nat, rest: string)
    requires rest == [] || !IsDigit(rest[0])
    ensures IntCast(NatToString(n) + rest) == n
  {
    var s := NatToString(n) + rest;
    assert !IsSpace(s[0]) && s[0] != '-' && s[0] != '+';
    assert SkipSpace(s) == s;
    DigitRunOfDigits(NatToString(n), rest);
    DigitsValueOfDecimal(n);
  }

  predicate IsLetter(c: char) { 'A' <= c <= 'Z' || 'a' <= c <= 'z' }

  /** A string that starts with a letter casts to 0. */
  lemma {:induction false} CastOfWord(s: string)
    requires s != [] && IsLetter(s[0])
    ensures IntCast(s) == 0
  {
    assert SkipSpace(s) == s;
  }

  /** The two-digit rendering of a number below 100, with a leading zero. */
  function TwoDigits(n: nat): (r: string)
    requires n < 100
    ensures |r| == 2
  {
    [Digit(n / 10), Digit(n % 10)]
  }

  /** The four-digit rendering of a number below 10000, with leading zeros. */
  function FourDigits(n: nat): (r: string)
    requires n < 10000
    ensures |r| == 4
  {
    TwoDigits(n / 100) + TwoDigits(n % 100)
  }

  lemma {:induction false} ValueOfTwoDigits(n: nat)
    requires n < 100
    ensures DigitsValue(TwoDigits(n)) == n
  {
    var s := TwoDigits(n);
    assert s[..1] == [Digit(n / 10)];
    assert DigitsValue(s[..1]) == n / 10;
  }

  lemma {:induction false} CastOfTwoDigits(n: nat)
    requires n < 100
    ensures IntCast(TwoDigits(n)) == n
  {
    var s := TwoDigits(n);
    assert SkipSpace(s) == s;
    DigitRunOfDigits(s, []);
    assert s + [] == s;
    ValueOfTwoDigits(n);
  }

  lemma {:induction false} CastOfFourDigits(n: nat)
    requires n < 10000
    ensures IntCast(FourDigits(n)) == n
  {
    var s := FourDigits(n);
    var hi, lo := n / 100, n % 100;
    assert SkipSpace(s) == s;
    DigitRunOfDigits(s, []);
    assert s + [] == s;
    assert s[..3][..2] == s[..2] == TwoDigits(hi);
    assert s[..3][..1] == [Digit(hi / 10)];
    ValueOfTwoDigits(hi);
    assert DigitsValue(s[..2]) == hi;
    assert DigitsValue(s[..3]) == hi * 10 + lo / 10;
  }

  /** The number of bytes of a character in UTF-8. */
  function Utf8Width(c: char): nat
  {
    if c as int < 0x80 then 1
    else if c as int < 0x800 then 2
    else if c as int < 0x1_0000 then 3
    else 4
  }

  /** strlen(s): the length of s in bytes, UTF-8 encoded. */
  function StrLen(s: string): (n: nat)
    ensures |s| <= n <= 4 * |s|
  {
    if s == [] then 0 else Utf8Width(s[0]) + StrLen(s[1..])
  }

  /** On ASCII text strlen counts characters. */
  lemma {:induction false} StrLenAscii(s: string)
    requires forall i :: 0 <= i < |s| ==> s[i] as int < 0x80
    ensures StrLen(s) == |s|
  {
    if s != [] {
      StrLenAscii(s[1..]);
    }
  }

  /** date('Y'): at least four digits, a minus sign before years before 0. */
  function YearText(y: int): (r: string)
    ensures |r| >= 4
  {
    if y < 0 then "-" + PadFour(NatToString(-y)) else PadFour(NatToString(y))
  }

  function PadFour(s: string): (r: string)
    ensures |r| >= 4 && |r| >= |s|
    decreases 4 - |s|
  {
    if |s| < 4 then PadFour("0" + s) else s
  }

  /** A leading zero does not change the value of a digit string. */
  lemma {:induction false} LeadingZero(s: string)
    ensures DigitsValue("0" + s) == DigitsValue(s)
    decreases |s|
  {
    if s == [] {
      assert ("0" + s)[..0] == [];
    } else {
      var n := |s| - 1;
      assert ("0" + s)[..|"0" + s| - 1] == "0" + s[..n];
      LeadingZero(s[..n]);
    }
  }

  /** Padding a digit string to four places keeps it a digit string of the same value. */
  lemma {:induction false} PadFourDigits(s: string)
    requires forall i :: 0 <= i < |s| ==> IsDigit(s[i])
    ensures forall i :: 0 <= i < |PadFour(s)| ==> IsDigit(PadFour(s)[i])
    ensures DigitsValue(PadFour(s)) == DigitsValue(s)
    decreases 4 - |s|
  {
    if |s| < 4 {
      LeadingZero(s);
      PadFourDigits("0" + s);
    }
  }

  /** The year text is digits, after a minus sign for a year before 0, and
      the (int) cast reads the year back from it. */
  lemma {:induction false} YearTextReadsBack(y: int)
    ensures y >= 0 ==> forall i :: 0 <= i < |YearText(y)| ==> IsDigit(YearText(y)[i])
    ensures y < 0 ==> YearText(y)[0] == '-' && forall i :: 1 <= i < |YearText(y)| ==> IsDigit(YearText(y)[i])
    ensures IntCast(YearText(y)) == y
  {
    var n: nat := if y < 0 then -y else y;
    var p := PadFour(NatToString(n));
    PadFourDigits(NatToString(n));
    DigitsValueOfDecimal(n);
    DigitRunOfDigits(p, []);
    assert p + [] == p;
    if y < 0 {
      var r := "-" + p;
      assert r[1..] == p;
      assert SkipSpace(r) == r;
    } else {
      assert SkipSpace(p) == p;
    }
  }
}

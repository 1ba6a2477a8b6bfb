/**
 * The few Java string operations the process depends on: upper-casing,
 * blank tests, String.split(","), Integer.parseInt and String.valueOf(int).
 * Characters are treated as ASCII: only 'a'..'z' change case and only
 * '0'..'9' are digits.
 */
module Text {
  import opened Wrappers

  /** Character.toUpperCase on ASCII. */
  function UpperChar(c: char): char {
    if 'a' <= c <= 'z' then (c as int - 32) as char else c
  }

  /** String.toUpperCase (and SQL UPPER). */
  function Upper(s: string): string {
    seq(|s|, i requires 0 <= i < |s| => UpperChar(s[i]))
  }

  /** String.equalsIgnoreCase. */
  predicate EqualsIgnoreCase(a: string, b: string) {
    Upper(a) == Upper(b)
  }

  /** Util.isEmpty(s, true): String.trim drops every character up to ' ',
      so a string is blank when it holds nothing else. A null parameter is
      the empty string here. */
  predicate IsBlank(s: string) {
    forall i :: 0 <= i < |s| ==> s[i] <= ' '
  }

  predicate StartsWith(s: string, prefix: string) {
    |prefix| <= |s| && s[..|prefix|] == prefix
  }

  predicate EndsWith(s: string, suffix: string) {
    |suffix| <= |s| && s[|s| - |suffix|..] == suffix
  }

  lemma UpperConcat(a: string, b: string)
    ensures Upper(a + b) == Upper(a) + Upper(b)
  {
  }

  lemma UpperIdempotent(s: string)
    ensures Upper(Upper(s)) == Upper(s)
  {
  }

  /** Upper-casing a string of the identifier alphabet used by suffixes
      such as "_ID" and "." leaves it as it is. */
  lemma UpperOfSuffixes()
    ensures Upper("_ID") == "_ID" && Upper(".") == "."
  {
    assert Upper("_ID") == [UpperChar('_'), UpperChar('I'), UpperChar('D')];
    assert Upper(".") == [UpperChar('.')];
  }

  // ---------------------------------------------------------------------
  // Decimal numbers

  const INT_MIN: int := -0x8000_0000
  const INT_MAX: int := 0x7fff_ffff

  predicate IsDigit(c: char) {
    '0' <= c <= '9'
  }

  predicate AllDigits(s: string) {
    forall i :: 0 <= i < |s| ==> IsDigit(s[i])
  }

  function DigitChar(d: int): char
    requires 0 <= d < 10
  {
    ('0' as int + d) as char
  }

  /** The digits of n, most significant first, without leading zeros. */
  function Digits(n: nat): (r: string)
    ensures |r| >= 1 && AllDigits(r)
    decreases n
  {
    if n < 10 then [DigitChar(n)] else Digits(n / 10) + [DigitChar(n % 10)]
  }

  /** String.valueOf(int). */
  function Decimal(n: int): string {
    if n < 0 then "-" + Digits(-n) else Digits(n)
  }

  /** The value of a string of digits read left to right. */
  function DigitsValue(s: string): nat
    requires AllDigits(s)
  {
    if s == [] then 0 else DigitsValue(s[..|s| - 1]) * 10 + (s[|s| - 1] as int - '0' as int)
  }

  /** Integer.parseInt(s) in base 10: an optional '-' or '+', then at least
      one digit, and a value in the 32-bit range. None is the case where
      Java throws NumberFormatException. */
  function ParseInt(s: string): (r: Option<int>)
    ensures r.Some? ==> INT_MIN <= r.value <= INT_MAX
  {
    if s == [] then None
    else
      var body := if s[0] == '-' || s[0] == '+' then s[1..] else s;
      if body == [] || !AllDigits(body) then None
      else
        var digits: int := DigitsValue(body);
        var v := if s[0] == '-' then -digits else digits;
        if INT_MIN <= v <= INT_MAX then Some(v) else None
  }

  lemma {:induction false} DigitsValueOfDigits(n: nat)
    ensures DigitsValue(Digits(n)) == n
    decreases n
  {
    if n >= 10 {
      var d := Digits(n);
      assert d[..|d| - 1] == Digits(n / 10);
      DigitsValueOfDigits(n / 10);
    }
  }

  /** Parsing what String.valueOf wrote gives the number back. */
  lemma ParseDecimal(n: int)
    requires INT_MIN <= n <= INT_MAX
    ensures ParseInt(Decimal(n)) == Some(n)
  {
    var s := Decimal(n);
    if n < 0 {
      var d := Digits(-n);
      assert s == "-" + d && s[0] == '-' && s[1..] == d;
      DigitsValueOfDigits(-n);
      assert DigitsValue(s[1..]) == -n;
    } else {
      assert s == Digits(n) && IsDigit(s[0]);
      DigitsValueOfDigits(n);
      assert DigitsValue(s) == n;
    }
  }

  lemma DecimalHasNoDot(n: int)
    ensures '.' !in Decimal(n)
  {
    var s := Decimal(n);
    assert forall i :: 1 <= i < |s| ==> s[i] != '.' by {
      if n < 0 {
        assert forall i :: 1 <= i < |s| ==> s[i] == Digits(-n)[i - 1];
      }
    }
  }

  /** Different numbers have different decimal representations. */
  lemma DecimalInjective(a: int, b: int)
    requires Decimal(a) == Decimal(b)
    ensures a == b
  {
    var s := Decimal(a);
    assert IsDigit(Digits(if a < 0 then -a else a)[0]);
    assert IsDigit(Digits(if b < 0 then -b else b)[0]);
    if a < 0 {
      assert s[0] == '-';
      assert b < 0;
      assert s[1..] == Digits(-a) == Digits(-b);
      DigitsValueOfDigits(-a);
      DigitsValueOfDigits(-b);
    } else {
      assert b >= 0;
      DigitsValueOfDigits(a);
      DigitsValueOfDigits(b);
    }
  }

  // ---------------------------------------------------------------------
  // String.split(",")

  /** The text between consecutive commas, empty fields kept. */
  function Fields(s: string): (r: seq<string>)
    ensures |r| >= 1
  {
    if s == [] then [[]]
    else
      var rest := Fields(s[1..]);
      if s[0] == ',' then [[]] + rest else [[s[0]] + rest[0]] + rest[1..]
  }

  function DropTrailingEmpty(fs: seq<string>): seq<string> {
    if fs == [] then []
    else if fs[|fs| - 1] == [] then DropTrailingEmpty(fs[..|fs| - 1])
    else fs
  }

  /** A string that does not end in a comma has a non-empty last field. */
  lemma {:induction false} FieldsLastNonEmpty(s: string)
    requires s != [] && s[|s| - 1] != ','
    ensures Fields(s)[|Fields(s)| - 1] != []
  {
    if |s| > 1 {
      FieldsLastNonEmpty(s[1..]);
    }
  }

  /** String.split(","): the fields with trailing empty ones removed; the
      empty string splits into itself. */
  function Split(s: string): seq<string> {
    if s == [] then [s] else DropTrailingEmpty(Fields(s))
  }

  /** String.join(",", fs). */
  function Join(fs: seq<string>): string
    requires |fs| >= 1
  {
    if |fs| == 1 then fs[0] else fs[0] + "," + Join(fs[1..])
  }

  /** Joining the fields with commas rebuilds the string. */
  lemma {:induction false} JoinFields(s: string)
    ensures Join(Fields(s)) == s
  {
    if s != [] {
      JoinFields(s[1..]);
      var rest := Fields(s[1..]);
      if s[0] == ',' {
        assert Join([[]] + rest) == [] + "," + Join(rest);
      } else {
        var fs := [[s[0]] + rest[0]] + rest[1..];
        if |rest| == 1 {
          assert Join(fs) == [s[0]] + rest[0];
        } else {
          assert fs[1..] == rest[1..];
          assert Join(rest) == rest[0] + "," + Join(rest[1..]);
          assert Join(fs) == [s[0]] + rest[0] + "," + Join(rest[1..]);
        }
      }
    }
  }

  lemma {:induction false} FieldsHaveNoComma(s: string)
    ensures forall t :: t in Fields(s) ==> ',' !in t
  {
    if s != [] {
      FieldsHaveNoComma(s[1..]);
      var rest := Fields(s[1..]);
      if s[0] != ',' {
        assert forall t :: t in rest[1..] ==> t in rest;
        assert rest[0] in rest;
      }
    }
  }

  lemma {:induction false} DropTrailingEmptyIsPrefix(fs: seq<string>)
    ensures var r := DropTrailingEmpty(fs); |r| <= |fs| && r == fs[..|r|]
    ensures DropTrailingEmpty(fs) == [] || DropTrailingEmpty(fs)[|DropTrailingEmpty(fs)| - 1] != []
  {
    if fs != [] && fs[|fs| - 1] == [] {
      DropTrailingEmptyIsPrefix(fs[..|fs| - 1]);
    }
  }

  /** No token that String.split(",") produces contains a comma, and none
      but the sole token of the empty string is empty at the end. */
  lemma SplitTokensHaveNoComma(s: string)
    ensures forall t :: t in Split(s) ==> ',' !in t
  {
    if s != [] {
      FieldsHaveNoComma(s);
      DropTrailingEmptyIsPrefix(Fields(s));
      var r := Split(s);
      forall t | t in r ensures ',' !in t {
        var k :| 0 <= k < |r| && r[k] == t;
        assert t == Fields(s)[k];
      }
    }
  }
}

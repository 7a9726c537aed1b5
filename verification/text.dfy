/**
 * The few pieces of java.lang string building the helpers rely on: joining with a
 * separator, what a StringBuilder appends for a possibly-null String, and the decimal
 * form of an int.
 */
module Text {
  import opened Wrappers

  /** The parts with `sep` between neighbours, built left to right as a StringBuilder does. */
  function Join(parts: seq<string>, sep: string): string
  {
    if |parts| == 0 then ""
    else if |parts| == 1 then parts[0]
    else Join(parts[..|parts| - 1], sep) + sep + parts[|parts| - 1]
  }

  /** Joining read from the front: the first part, the separator, then the rest joined. */
  lemma {:induction false} JoinCons(head: string, tail: seq<string>, sep: string)
    requires |tail| > 0
    ensures Join([head] + tail, sep) == head + sep + Join(tail, sep)
  {
    var all := [head] + tail;
    if |tail| == 1 {
      assert all[..1] == [head];
    } else {
      assert all[..|all| - 1] == [head] + tail[..|tail| - 1];
      JoinCons(head, tail[..|tail| - 1], sep);
    }
  }

  /**
   * What `StringBuilder.append(String)` adds: the text itself, or "null" for a null
   * reference, so that the appended text cannot tell a null from the string "null".
   */
  function Show(s: Option<string>): (r: string)
    ensures s.Some? ==> r == s.value
    ensures r == "null" <==> s == None || s == Some("null")
  {
    match s
    case Some(t) => t
    case None => "null"
  }

  predicate IsDigit(c: char)
  {
    '0' <= c <= '9'
  }

  function DigitChar(d: nat): (c: char)
    requires d < 10
    ensures IsDigit(c) && c as int - '0' as int == d
  {
    "0123456789"[d]
  }

  /** The decimal digits of `n`, most significant first, with no leading zeros. */
  function Digits(n: nat): (r: string)
    ensures |r| > 0 && forall i :: 0 <= i < |r| ==> IsDigit(r[i])
    ensures |r| > 1 ==> r[0] != '0'
  {
    if n < 10 then [DigitChar(n)] else Digits(n / 10) + [DigitChar(n % 10)]
  }

  /** `Integer.toString(n)`: the digits of |n|, after a '-' when n is negative. */
  function Decimal(n: int): (r: string)
    ensures |r| > 0
    ensures forall i :: 0 <= i < |r| ==> IsDigit(r[i]) || (i == 0 && r[i] == '-' && n < 0)
  {
    if n < 0 then "-" + Digits(-n) else Digits(n)
  }

  /** The number a string of decimal digits denotes. */
  function DigitsValue(s: string): nat
  {
    if |s| == 0 then 0
    else
      var c := s[|s| - 1];
      DigitsValue(s[..|s| - 1]) * 10 + (if IsDigit(c) then c as int - '0' as int else 0)
  }

  /** Reads back what Decimal writes. */
  function ParseDecimal(s: string): int
  {
    if |s| > 0 && s[0] == '-' then 0 - DigitsValue(s[1..]) else DigitsValue(s)
  }

  lemma {:induction false} DigitsRoundTrip(n: nat)
    ensures DigitsValue(Digits(n)) == n
  {
    if n >= 10 {
      var s := Digits(n);
      assert s[..|s| - 1] == Digits(n / 10);
      DigitsRoundTrip(n / 10);
    }
  }

  /** Decimal loses nothing: the number can be read back from its text. */
  lemma DecimalRoundTrip(n: int)
    ensures ParseDecimal(Decimal(n)) == n
  {
    var s := Decimal(n);
    if n < 0 {
      assert s == "-" + Digits(-n);
      assert s[1..] == Digits(-n);
      DigitsRoundTrip(-n);
    } else {
      assert s == Digits(n) && IsDigit(s[0]);
      DigitsRoundTrip(n);
    }
  }

  /** Different numbers have different decimal texts. */
  lemma DecimalInjective(m: int, n: int)
    ensures Decimal(m) == Decimal(n) ==> m == n
  {
    DecimalRoundTrip(m);
    DecimalRoundTrip(n);
  }
}

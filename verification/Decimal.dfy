/** `str` and `int` on integers, as the stored counters and cached ages use them. */
module Decimal {
  import opened Text

  predicate IsDigit(c: char) {
    '0' <= c <= '9'
  }

  function DigitOf(n: nat): char
    requires n < 10
  {
    ('0' as int + n) as char
  }

  function NatText(n: nat): (s: string)
    ensures s != "" && forall i :: 0 <= i < |s| ==> IsDigit(s[i])
  {
    if n < 10 then [DigitOf(n)] else NatText(n / 10) + [DigitOf(n % 10)]
  }

  function IntText(n: int): string {
    if n < 0 then "-" + NatText(-n) else NatText(n)
  }

  /** Digits, with single underscores allowed between them. */
  function ParseNat(s: string): Option<nat>
    decreases |s|
  {
    if s == "" || !IsDigit(s[|s| - 1]) then None
    else
      var d := s[|s| - 1] as int - '0' as int;
      if |s| == 1 then Some(d)
      else
        match ParseNat(if s[|s| - 2] == '_' then s[..|s| - 2] else s[..|s| - 1])
        case None => None
        case Some(front) => Some(front * 10 + d)
  }

  function Negated(n: Option<nat>): Option<int> {
    if n.Some? then Some(0 - n.value) else None
  }

  /** Digits after at most one sign. */
  function ParseSigned(t: string, digits: string -> Option<nat>): Option<int> {
    if t == "" then None
    else if t[0] == '-' then Negated(digits(t[1..]))
    else if t[0] == '+' then digits(t[1..])
    else digits(t)
  }

  /** `int(s)`; None stands for ValueError. */
  function ParseInt(s: string): Option<int> {
    ParseSigned(Strip(s), ParseNat)
  }

  lemma {:induction false} NatRoundTrip(n: nat)
    ensures ParseNat(NatText(n)) == Some(n)
  {
    if n >= 10 {
      var front, s := NatText(n / 10), NatText(n);
      NatRoundTrip(n / 10);
      assert s[..|s| - 1] == front && s[|s| - 2] == front[|front| - 1];
    }
  }

  lemma MinusIsRead(text: string, n: nat, digits: string -> Option<nat>)
    requires digits(text) == Some(n)
    ensures ParseSigned("-" + text, digits) == Some(0 - n)
  {
    assert ("-" + text)[1..] == text;
  }

  lemma DigitsAreTight(text: string)
    requires text != "" && forall i :: 0 <= i < |text| ==> IsDigit(text[i])
    ensures Strip(text) == text && Strip("-" + text) == "-" + text
  {
    var signed := "-" + text;
    assert signed[0] == '-' && signed[|signed| - 1] == text[|text| - 1];
    NothingToStrip(text);
    NothingToStrip(signed);
  }

  lemma DigitsAreRead(text: string, n: nat)
    requires text != "" && (forall i :: 0 <= i < |text| ==> IsDigit(text[i])) && ParseNat(text) == Some(n)
    ensures ParseInt(text) == Some(n) && ParseInt("-" + text) == Some(0 - n)
  {
    DigitsAreTight(text);
    MinusIsRead(text, n, ParseNat);
  }

  lemma IntRoundTrip(n: int)
    ensures ParseInt(IntText(n)) == Some(n) && IntText(n) != ""
  {
    var magnitude := if n < 0 then -n else n;
    NatRoundTrip(magnitude);
    DigitsAreRead(NatText(magnitude), magnitude);
  }

  /** Decimal notation: a digit behind a number multiplies it by ten; a minus sign negates. */
  lemma NotationIsDecimal(n: nat, d: nat)
    requires d < 10
    ensures IntText(d) == ["0123456789"[d]]
    ensures n > 0 ==> IntText(10 * n + d) == IntText(n) + ["0123456789"[d]] && IntText(0 - n) == "-" + IntText(n)
  {
    assert forall i :: 0 <= i < 10 ==> "0123456789"[i] as int == '0' as int + i;
  }
}

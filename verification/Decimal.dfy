/** Decimal text of integers: what `toString` prints and what `parseInt(_, 10)` reads. */
module Decimal {
  import opened Wrappers
  import opened Text

  predicate IsDigit(c: char) {
    '0' <= c <= '9'
  }

  function Digit(d: nat): (c: char)
    requires d < 10
    ensures IsDigit(c)
  {
    '0' + d as char
  }

  function DigitValue(c: char): (d: nat)
    requires IsDigit(c)
    ensures d < 10 && Digit(d) == c
  {
    (c - '0') as nat
  }

  /** Decimal digits without leading zeros. */
  function Digits(n: nat): string {
    if n < 10 then [Digit(n)] else Digits(n / 10) + [Digit(n % 10)]
  }

  function Print(n: int): string {
    if n < 0 then "-" + Digits(-n) else Digits(n)
  }

  predicate AllDigits(s: string) {
    forall i | 0 <= i < |s| :: IsDigit(s[i])
  }

  /** The longest prefix of `s` made of digits. */
  function DigitPrefix(s: string): (p: string)
    ensures AllDigits(p) && p <= s
  {
    if s == "" || !IsDigit(s[0]) then "" else [s[0]] + DigitPrefix(s[1..])
  }

  function ValueOf(s: string): nat
    requires AllDigits(s)
  {
    if s == "" then 0 else 10 * ValueOf(s[..|s| - 1]) + DigitValue(s[|s| - 1])
  }

  /** White space and line ends, Unicode's space separators included. */
  predicate IsSpace(c: char) {
    || c == ' ' || '\t' <= c <= '\r' || c == '\U{A0}' || c == '\U{1680}' || '\U{2000}' <= c <= '\U{200A}'
    || c == '\U{2028}' || c == '\U{2029}' || c == '\U{202F}' || c == '\U{205F}' || c == '\U{3000}' || c == '\U{FEFF}'
  }

  function SkipSpaces(s: string): string {
    if s != "" && IsSpace(s[0]) then SkipSpaces(s[1..]) else s
  }

  /** `None` is NaN.  Text after the first digits is ignored. */
  function ParseInt(s: string): Option<int> {
    var t := SkipSpaces(s);
    if t != "" && t[0] == '-' then Signed(DigitPrefix(t[1..]), -1)
    else if t != "" && t[0] == '+' then Signed(DigitPrefix(t[1..]), 1)
    else Signed(DigitPrefix(t), 1)
  }

  function Signed(digits: string, sign: int): Option<int>
    requires AllDigits(digits)
  {
    if digits == "" then None else Some(sign * ValueOf(digits))
  }

  lemma {:induction false} DigitsAreDigits(n: nat)
    ensures AllDigits(Digits(n)) && |Digits(n)| > 0
    ensures ValueOf(Digits(n)) == n
    ensures Digits(n)[0] == '0' ==> n == 0
  {
    if n < 10 {
      assert Digits(n)[..0] == "";
    } else {
      DigitsAreDigits(n / 10);
      assert Digits(n)[..|Digits(n)| - 1] == Digits(n / 10);
    }
  }

  lemma {:induction false} DigitPrefixStops(s: string, rest: string)
    requires AllDigits(s)
    requires rest == "" || !IsDigit(rest[0])
    ensures DigitPrefix(s + rest) == s
  {
    if s == "" {
      assert s + rest == rest;
    } else {
      assert (s + rest)[1..] == s[1..] + rest;
      DigitPrefixStops(s[1..], rest);
    }
  }

  lemma {:induction false} SkipNothing(s: string)
    requires s != "" && !IsSpace(s[0])
    ensures SkipSpaces(s) == s
  {
  }

  lemma {:induction false} ParseUnsigned(t: string)
    requires t != "" && IsDigit(t[0])
    ensures ParseInt(t) == Signed(DigitPrefix(t), 1)
  {
    SkipNothing(t);
  }

  lemma {:induction false} ParseNegative(t: string)
    ensures ParseInt("-" + t) == Signed(DigitPrefix(t), -1)
  {
    var s := "-" + t;
    SkipNothing(s);
    assert s[1..] == t;
  }

  /** Digits with other text behind them, without and with a sign. */
  lemma ParseDigits(digits: string, rest: string, text: string)
    requires digits != "" && AllDigits(digits) && (rest == "" || !IsDigit(rest[0]))
    requires text == digits + rest
    ensures ParseInt(text) == Signed(digits, 1)
    ensures ParseInt("-" + text) == Signed(digits, -1)
  {
    DigitPrefixStops(digits, rest);
    assert text[0] == digits[0];
    ParseUnsigned(text);
    ParseNegative(text);
  }

  /** Reading back what was printed, whatever non-digit text follows. */
  lemma ParsePrint(n: int, rest: string)
    requires rest == "" || !IsDigit(rest[0])
    ensures ParseInt(Print(n) + rest) == Some(n)
  {
    var m: nat := if n < 0 then -n else n;
    var digits := Digits(m);
    DigitsAreDigits(m);
    ParseDigits(digits, rest, digits + rest);
    Associate("-", digits, rest);
  }

  lemma PrintInjective(a: int, b: int)
    requires Print(a) == Print(b)
    ensures a == b
  {
    ParsePrint(a, "");
    ParsePrint(b, "");
    assert Print(a) + "" == Print(a) && Print(b) + "" == Print(b);
  }

  /** An optional minus sign, then digits without a redundant zero in front. */
  predicate Canonical(s: string) {
    var body := if s != "" && s[0] == '-' then s[1..] else s;
    body != "" && AllDigits(body) && (body[0] == '0' ==> s == "0")
  }

  lemma DigitsSnoc(front: nat, d: nat)
    requires front > 0 && d < 10
    ensures Digits(10 * front + d) == Digits(front) + [Digit(d)]
  {
  }

  lemma {:induction false} DigitsOfValue(s: string)
    requires s != "" && AllDigits(s) && (s[0] == '0' ==> s == "0")
    ensures Digits(ValueOf(s)) == s
    ensures ValueOf(s) == 0 ==> s == "0"
  {
    var front, last := s[..|s| - 1], s[|s| - 1];
    if |s| == 1 {
      assert front == "" && ValueOf(s) == DigitValue(last);
    } else {
      DigitsOfValue(front);
      DigitsSnoc(ValueOf(front), DigitValue(last));
      assert s == front + [last];
    }
  }

  lemma ParseOnlyDigits(body: string)
    requires body != "" && AllDigits(body)
    ensures ParseInt(body) == Signed(body, 1) && ParseInt("-" + body) == Signed(body, -1)
  {
    assert body == body + "";
    ParseDigits(body, "", body);
  }

  lemma CanonicalParses(s: string)
    requires Canonical(s)
    ensures ParseInt(s).Some? && Print(ParseInt(s).value) == s
  {
    var body := if s[0] == '-' then s[1..] else s;
    assert s[0] == '-' ==> s == "-" + body;
    ParseOnlyDigits(body);
    DigitsOfValue(body);
  }

  lemma PrintIsCanonical(n: int)
    ensures Canonical(Print(n))
  {
    DigitsAreDigits(if n < 0 then -n else n);
    if n < 0 {
      assert Print(n)[1..] == Digits(-n);
    }
  }

  /** A text survives being parsed and printed again exactly when it is canonical. */
  lemma PrintParse(s: string, n: int)
    requires ParseInt(s) == Some(n)
    ensures Print(n) == s <==> Canonical(s)
  {
    if Canonical(s) {
      CanonicalParses(s);
    }
    PrintIsCanonical(n);
  }

  /** The white space and line ends of ECMAScript, by code point. */
  lemma SpacesByCode(c: char)
    ensures IsSpace(c) <==>
            || 9 <= c as int <= 13 || c as int in {32, 160, 5760, 8232, 8233, 8239, 8287, 12288, 65279}
            || 8192 <= c as int <= 8202
  {
  }

  lemma {:induction false} SkipAllSpaces(spaces: string, text: string)
    requires forall c | c in spaces :: IsSpace(c)
    requires text == "" || !IsSpace(text[0])
    ensures SkipSpaces(spaces + text) == text
  {
    if spaces == "" {
      assert spaces + text == text;
    } else {
      assert (spaces + text)[0] == spaces[0] && spaces[0] in spaces;
      assert (spaces + text)[1..] == spaces[1..] + text;
      SkipAllSpaces(spaces[1..], text);
    }
  }

  /** White space is skipped, and then decides what follows. */
  lemma ParseAfterSpaces(spaces: string, text: string)
    requires forall c | c in spaces :: IsSpace(c)
    requires text == "" || !IsSpace(text[0])
    ensures ParseInt(spaces + text) == ParseInt(text)
  {
    SkipAllSpaces(spaces, text);
    SkipAllSpaces("", text);
    assert "" + text == text;
  }

  /** A plus sign in front of digits changes nothing, and text without digits in front is not a number. */
  lemma ParseOther(text: string)
    ensures text != "" && IsDigit(text[0]) ==> ParseInt("+" + text) == ParseInt(text)
    ensures text != "" && !IsDigit(text[0]) && !IsSpace(text[0]) && text[0] != '-' && text[0] != '+' ==>
              ParseInt(text) == None
    ensures ParseInt("") == None
  {
    if text != "" && IsDigit(text[0]) {
      ParseUnsigned(text);
      ParsePlus(text);
    } else if text != "" && !IsSpace(text[0]) {
      SkipNothing(text);
    }
  }

  lemma {:induction false} ParsePlus(t: string)
    ensures ParseInt("+" + t) == Signed(DigitPrefix(t), 1)
  {
    var s := "+" + t;
    SkipNothing(s);
    assert s[1..] == t;
  }
}

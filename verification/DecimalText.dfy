/**
 `str(i)` and `int(text)` for integers, over ASCII: surrounding blanks, a sign, leading zeros and
 single underscores between digits are accepted when reading, and none of them is written.
 */
module DecimalText {
  import opened Wrappers
  import J = JsonPrinter

  /** Digits and a minus sign as characters. */
  function Characters(units: seq<J.Unit>): (s: string)
    requires forall i :: 0 <= i < |units| ==> units[i] < 0x80
    ensures |s| == |units| && forall i :: 0 <= i < |s| ==> s[i] == units[i] as char
  {
    seq(|units|, i requires 0 <= i < |units| => units[i] as char)
  }

  lemma DigitsAreAscii(n: nat)
    ensures forall i :: 0 <= i < |J.Digits(n)| ==> J.Digits(n)[i] < 0x80
  {
    J.DigitsSpell(n);
    hide J.Digits;
  }

  function ShowNatural(n: nat): string {
    DigitsAreAscii(n);
    Characters(J.Digits(n))
  }

  /** `str(i)`. */
  function Show(i: int): string {
    if i < 0 then "-" + ShowNatural(-i) else ShowNatural(i)
  }

  predicate Blank(c: char) {
    c == ' ' || '\t' <= c <= '\r' || 0x1C as char <= c <= 0x1F as char
  }

  function StripLeft(s: string): string {
    if s != "" && Blank(s[0]) then StripLeft(s[1..]) else s
  }

  function StripRight(s: string): string {
    if s != "" && Blank(s[|s| - 1]) then StripRight(s[..|s| - 1]) else s
  }

  predicate IsDigit(c: char) {
    '0' <= c <= '9'
  }

  /** Digits with single underscores between them. */
  predicate Grouped(s: string) {
    && s != "" && IsDigit(s[0]) && IsDigit(s[|s| - 1])
    && (forall i :: 0 <= i < |s| ==> IsDigit(s[i]) || s[i] == '_')
    && (forall i :: 0 < i < |s| ==> !(s[i - 1] == '_' && s[i] == '_'))
  }

  function Magnitude(s: string): (n: nat)
    requires forall i :: 0 <= i < |s| ==> IsDigit(s[i]) || s[i] == '_'
  {
    if s == "" then 0
    else
      var init, last := s[..|s| - 1], s[|s| - 1];
      assert IsDigit(last) || last == '_';
      if last == '_' then Magnitude(init) else 10 * Magnitude(init) + (last as int - '0' as int)
  }

  /** `int(text)`, or None where it raises. */
  function ParseInt(text: string): Option<int> {
    var t := StripRight(StripLeft(text));
    var signed := t != "" && (t[0] == '-' || t[0] == '+');
    var digits := if signed then t[1..] else t;
    if !Grouped(digits) then None
    else
      var magnitude: int := Magnitude(digits);
      Some(if signed && t[0] == '-' then -magnitude else magnitude)
  }

  lemma {:induction false} MagnitudeOfDigits(ds: seq<J.Unit>)
    requires J.AllDigits(ds)
    ensures forall i :: 0 <= i < |ds| ==> ds[i] < 0x80
    ensures forall i :: 0 <= i < |ds| ==> IsDigit(Characters(ds)[i])
    ensures Magnitude(Characters(ds)) == J.DecimalValue(ds)
    decreases |ds|
  {
    if ds != [] {
      var init, last := ds[..|ds| - 1], ds[|ds| - 1];
      assert J.AllDigits(init) && J.Digit(last);
      MagnitudeOfDigits(init);
      assert Characters(ds)[..|ds| - 1] == Characters(init);
    }
  }

  /** A natural number's text is nothing but digits, and they spell it. */
  lemma NaturalText(n: nat)
    ensures var s := ShowNatural(n);
            && s != "" && (forall i :: 0 <= i < |s| ==> IsDigit(s[i]))
            && Magnitude(s) == n
  {
    hide J.Digits;
    J.DigitsSpell(n);
    DigitsAreAscii(n);
    MagnitudeOfDigits(J.Digits(n));
  }

  /** Reading what was written gives the integer back, and the text has no colon. */
  lemma ParseShown(i: int)
    ensures ParseInt(Show(i)) == Some(i) && ':' !in Show(i)
  {
    hide ShowNatural;
    var n := if i < 0 then -i else i;
    NaturalText(n);
    var s, digits := Show(i), ShowNatural(n);
    assert s[|s| - 1] == digits[|digits| - 1];
    assert i < 0 ==> s[1..] == digits;
    assert !Blank(s[0]) && !Blank(s[|s| - 1]);
    assert StripLeft(s) == s && StripRight(s) == s;
  }

  /** What is written: a minus sign for a negative number, then digits, without leading zeros. */
  lemma ShownText(i: int)
    ensures var digits := if i < 0 then Show(i)[1..] else Show(i);
            && (i < 0 ==> Show(i) != "" && Show(i)[0] == '-')
            && digits != "" && (forall k :: 0 <= k < |digits| ==> IsDigit(digits[k]))
            && (digits[0] == '0' ==> i == 0 && |digits| == 1)
  {
    var n := if i < 0 then -i else i;
    NaturalText(n);
    J.DigitsSpell(n);
    DigitsAreAscii(n);
  }

  /** Different integers have different texts. */
  lemma ShowInjective(i: int, j: int)
    requires Show(i) == Show(j)
    ensures i == j
  {
    hide Show, ParseInt;
    ParseShown(i);
    ParseShown(j);
  }
}

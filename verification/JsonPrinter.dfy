/**
 The JSON printer of the crash-site exporter, and a parser for RFC 8259 texts (sections 3 to 7)
 whose numbers are integers. Strings are sequences of UTF-16 code units, as in Java.
 */
module JsonPrinter {
  import opened Wrappers
  import opened Words

  type Unit = u: int | 0 <= u < 0x1_0000

  datatype Json =
    | Null
    | Bool(b: bool)
    | Integer(n: int)
    | Text(s: seq<Unit>)
    | List(items: seq<Json>)
    | Object(members: seq<Member>)

  datatype Member = Member(key: seq<Unit>, value: Json)

  const NULL: seq<Unit> := [0x6E, 0x75, 0x6C, 0x6C]
  const TRUE: seq<Unit> := [0x74, 0x72, 0x75, 0x65]
  const FALSE: seq<Unit> := [0x66, 0x61, 0x6C, 0x73, 0x65]
  const MINUS: Unit := 0x2D

  /* ---------- printing ---------- */

  function HexDigit(d: nat): Unit
    requires d < 16
  {
    if d < 10 then 0x30 + d else 0x57 + d
  }

  /** One code unit inside a string: an escape for quotes, backslashes and control characters. */
  function Escaped(u: Unit): (r: seq<Unit>)
    ensures r != []
  {
    if u == 0x5C then [0x5C, 0x5C]
    else if u == 0x22 then [0x5C, 0x22]
    else if u == 0x08 then [0x5C, 0x62]
    else if u == 0x0C then [0x5C, 0x66]
    else if u == 0x0A then [0x5C, 0x6E]
    else if u == 0x0D then [0x5C, 0x72]
    else if u == 0x09 then [0x5C, 0x74]
    else if u < 0x20 then [0x5C, 0x75, 0x30, 0x30, HexDigit(u / 16), HexDigit(u % 16)]
    else [u]
  }

  /** The escaped units of `s`, then `after`. */
  function EscapedTo(s: seq<Unit>, after: seq<Unit>): seq<Unit> {
    if s == [] then after else Escaped(s[0]) + EscapedTo(s[1..], after)
  }

  function QuotedTo(s: seq<Unit>, after: seq<Unit>): seq<Unit> {
    [0x22] + EscapedTo(s, [0x22] + after)
  }

  function DigitsTo(n: nat, after: seq<Unit>): seq<Unit>
    decreases n
  {
    var last := [0x30 + n % 10] + after;
    if n < 10 then last else DigitsTo(n / 10, last)
  }

  /** The text of `v`, then `after`. */
  function PrintTo(v: Json, after: seq<Unit>): seq<Unit>
    decreases v, 0
  {
    match v
    case Null => NULL + after
    case Bool(b) => (if b then TRUE else FALSE) + after
    case Integer(n) => if n < 0 then [MINUS] + DigitsTo(-n, after) else DigitsTo(n, after)
    case Text(s) => QuotedTo(s, after)
    case List(items) => [0x5B] + ItemsTo(items, [0x5D] + after)
    case Object(members) => [0x7B] + MembersTo(members, [0x7D] + after)
  }

  /** The items, separated by commas. */
  function ItemsTo(items: seq<Json>, after: seq<Unit>): seq<Unit>
    decreases items, 1
  {
    if items == [] then after
    else PrintTo(items[0], if |items| == 1 then after else [0x2C] + ItemsTo(items[1..], after))
  }

  function MembersTo(members: seq<Member>, after: seq<Unit>): seq<Unit>
    decreases members, 1
  {
    if members == [] then after
    else
      var tail := if |members| == 1 then after else [0x2C] + MembersTo(members[1..], after);
      QuotedTo(members[0].key, [0x3A] + PrintTo(members[0].value, tail))
  }

  /** `toJson(v)`. */
  function Printed(v: Json): seq<Unit> {
    PrintTo(v, [])
  }

  predicate Plain(u: Unit) {
    u >= 0x20 && u != 0x22 && u != 0x5C
  }

  /** Seven characters have an escape of two units, the other control characters one of six, in lower case. */
  lemma EscapesShort(u: Unit)
    ensures |Escaped(u)| == if Plain(u) then 1 else if u in {0x08, 0x09, 0x0A, 0x0C, 0x0D, 0x22, 0x5C} then 2 else 6
    ensures !Plain(u) ==> Escaped(u)[0] == 0x5C && forall i :: 0 <= i < |Escaped(u)| ==> !(0x41 <= Escaped(u)[i] <= 0x46)
  {
  }

  lemma {:induction false} PlainEscaped(s: seq<Unit>, after: seq<Unit>)
    requires forall i :: 0 <= i < |s| ==> Plain(s[i])
    ensures EscapedTo(s, after) == s + after
    decreases |s|
  {
    if s == [] {
      assert s + after == after;
    } else {
      var first, rest := [s[0]], s[1..];
      PlainEscaped(rest, after);
      assert Plain(s[0]) && Escaped(s[0]) == first;
      hide Escaped;
      assert first + (rest + after) == (first + rest) + after;
      assert first + rest == s;
    }
  }

  /** Text without quotes, backslashes and control characters is printed as it is. */
  lemma PlainTextPrints(s: seq<Unit>)
    requires forall i :: 0 <= i < |s| ==> Plain(s[i])
    ensures Printed(Text(s)) == [0x22] + s + [0x22]
  {
    PlainEscaped(s, [0x22] + []);
  }

  /* ---------- parsing ---------- */

  /** What was read and what follows it. */
  datatype Parsed<T> = Parsed(value: T, rest: seq<Unit>)

  predicate Blank(u: Unit) {
    u == 0x20 || u == 0x09 || u == 0x0A || u == 0x0D
  }

  function SkipBlanks(s: seq<Unit>): (r: seq<Unit>)
    ensures |r| <= |s|
  {
    if s != [] && Blank(s[0]) then SkipBlanks(s[1..]) else s
  }

  predicate Digit(u: Unit) {
    0x30 <= u <= 0x39
  }

  /** The characters that a number can consist of. */
  predicate NumberUnit(u: Unit) {
    Digit(u) || u == 0x2B || u == MINUS || u == 0x2E || u == 0x45 || u == 0x65
  }

  function HexValue(u: Unit): Option<nat> {
    if Digit(u) then Some(u - 0x30)
    else if 0x61 <= u <= 0x66 then Some(u - 0x57)
    else if 0x41 <= u <= 0x46 then Some(u - 0x37)
    else None
  }

  function ParseHex(s: seq<Unit>): (r: Option<Unit>)
    requires |s| == 4
  {
    var a, b, c, d := HexValue(s[0]), HexValue(s[1]), HexValue(s[2]), HexValue(s[3]);
    if a.Some? && b.Some? && c.Some? && d.Some? && a.value < 16 && b.value < 16 && c.value < 16 && d.value < 16
    then Some(0x1000 * a.value + 0x100 * b.value + 0x10 * c.value + d.value)
    else None
  }

  function SimpleEscape(u: Unit): Option<Unit> {
    if u == 0x22 || u == 0x5C || u == 0x2F then Some(u)
    else if u == 0x62 then Some(0x08)
    else if u == 0x66 then Some(0x0C)
    else if u == 0x6E then Some(0x0A)
    else if u == 0x72 then Some(0x0D)
    else if u == 0x74 then Some(0x09)
    else None
  }

  /** One character of a string, escaped or not; control characters must be escaped. */
  function ParseUnit(s: seq<Unit>): (r: Option<Parsed<Unit>>)
    requires s != []
    ensures r.Some? ==> |r.value.rest| < |s|
  {
    if s[0] == 0x5C then
      if |s| < 2 then None
      else if s[1] == 0x75 then
        if |s| < 6 then None
        else
          var code := ParseHex(s[2..6]);
          if code.None? then None else Some(Parsed(code.value, s[6..]))
      else
        var code := SimpleEscape(s[1]);
        if code.None? then None else Some(Parsed(code.value, s[2..]))
    else if s[0] < 0x20 then None
    else Some(Parsed(s[0], s[1..]))
  }

  /** The characters of a string up to its closing quote. */
  function ParseString(s: seq<Unit>): (r: Option<Parsed<seq<Unit>>>)
    ensures r.Some? ==> |r.value.rest| < |s|
    decreases |s|
  {
    if s == [] then None
    else if s[0] == 0x22 then Some(Parsed([], s[1..]))
    else
      var first := ParseUnit(s);
      if first.None? then None
      else
        var others := ParseString(first.value.rest);
        if others.None? then None
        else Some(Parsed([first.value.value] + others.value.value, others.value.rest))
  }

  /** The longest run of number characters. */
  function NumberRun(s: seq<Unit>): (n: nat)
    ensures n <= |s|
  {
    if s != [] && NumberUnit(s[0]) then 1 + NumberRun(s[1..]) else 0
  }

  predicate AllDigits(s: seq<Unit>) {
    forall i :: 0 <= i < |s| ==> Digit(s[i])
  }

  function DecimalValue(s: seq<Unit>): (n: nat)
    requires AllDigits(s)
  {
    if s == [] then 0 else 10 * DecimalValue(s[..|s| - 1]) + (s[|s| - 1] - 0x30)
  }

  /** An integer literal: digits without a superfluous leading zero. Fractions and exponents are not integers. */
  function ParseInteger(s: seq<Unit>): (r: Option<Parsed<Json>>)
    requires s != [] && (Digit(s[0]) || s[0] == MINUS)
    ensures r.Some? ==> |r.value.rest| < |s|
  {
    var n := NumberRun(s);
    var negative := s[0] == MINUS;
    var digits := if negative then s[1..n] else s[..n];
    if digits == [] || !AllDigits(digits) || (digits[0] == 0x30 && |digits| > 1) then None
    else
      var magnitude: int := DecimalValue(digits);
      Some(Parsed(Integer(if negative then -magnitude else magnitude), s[n..]))
  }

  function ParseValue(text: seq<Unit>): (r: Option<Parsed<Json>>)
    ensures r.Some? ==> |r.value.rest| < |text|
    decreases |text|, 0
  {
    hide ParseString, ParseInteger;
    var s := SkipBlanks(text);
    if s == [] then None
    else if s[0] == 0x22 then
      var body := ParseString(s[1..]);
      if body.None? then None else Some(Parsed(Text(body.value.value), body.value.rest))
    else if s[0] == 0x5B then
      var inside := SkipBlanks(s[1..]);
      if inside != [] && inside[0] == 0x5D then Some(Parsed(List([]), inside[1..]))
      else
        var items := ParseItems(inside);
        if items.None? then None else Some(Parsed(List(items.value.value), items.value.rest))
    else if s[0] == 0x7B then
      var inside := SkipBlanks(s[1..]);
      if inside != [] && inside[0] == 0x7D then Some(Parsed(Object([]), inside[1..]))
      else
        var members := ParseMembers(inside);
        if members.None? then None else Some(Parsed(Object(members.value.value), members.value.rest))
    else if Digit(s[0]) || s[0] == MINUS then ParseInteger(s)
    else if NULL <= s then Some(Parsed(Null, s[4..]))
    else if TRUE <= s then Some(Parsed(Bool(true), s[4..]))
    else if FALSE <= s then Some(Parsed(Bool(false), s[5..]))
    else None
  }

  /** Values separated by commas, up to the closing bracket. */
  function ParseItems(s: seq<Unit>): (r: Option<Parsed<seq<Json>>>)
    ensures r.Some? ==> |r.value.rest| < |s|
    decreases |s|, 1
  {
    var first := ParseValue(s);
    if first.None? then None
    else
      var next := SkipBlanks(first.value.rest);
      if next == [] then None
      else if next[0] == 0x5D then Some(Parsed([first.value.value], next[1..]))
      else if next[0] != 0x2C then None
      else
        var others := ParseItems(next[1..]);
        if others.None? then None
        else Some(Parsed([first.value.value] + others.value.value, others.value.rest))
  }

  /** A key, a colon and a value. */
  function ParseMember(text: seq<Unit>): (r: Option<Parsed<Member>>)
    ensures r.Some? ==> |r.value.rest| < |text|
    decreases |text|, 1
  {
    hide ParseString;
    var s := SkipBlanks(text);
    if s == [] || s[0] != 0x22 then None
    else
      var key := ParseString(s[1..]);
      if key.None? then None
      else
        var colon := SkipBlanks(key.value.rest);
        if colon == [] || colon[0] != 0x3A then None
        else
          var value := ParseValue(colon[1..]);
          if value.None? then None
          else Some(Parsed(Member(key.value.value, value.value.value), value.value.rest))
  }

  function ParseMembers(s: seq<Unit>): (r: Option<Parsed<seq<Member>>>)
    ensures r.Some? ==> |r.value.rest| < |s|
    decreases |s|, 2
  {
    var first := ParseMember(s);
    if first.None? then None
    else
      var next := SkipBlanks(first.value.rest);
      if next == [] then None
      else if next[0] == 0x7D then Some(Parsed([first.value.value], next[1..]))
      else if next[0] != 0x2C then None
      else
        var others := ParseMembers(next[1..]);
        if others.None? then None
        else Some(Parsed([first.value.value] + others.value.value, others.value.rest))
  }

  /* ---------- the parser undoes the printer ---------- */

  lemma HexRoundTrip(d: nat)
    requires d < 16
    ensures HexValue(HexDigit(d)) == Some(d)
  {
  }

  lemma UnitRoundTrip(u: Unit, after: seq<Unit>)
    ensures ParseUnit(Escaped(u) + after) == Some(Parsed(u, after)) && (Escaped(u) + after)[0] != 0x22
  {
    var s := Escaped(u) + after;
    assert s[|Escaped(u)|..] == after;
    if u < 0x20 {
      HexRoundTrip(u / 16);
      HexRoundTrip(u % 16);
      HexRoundTrip(0);
      if |Escaped(u)| == 6 {
        assert s[2..6] == [0x30, 0x30, HexDigit(u / 16), HexDigit(u % 16)];
      }
    }
  }

  lemma {:induction false} StringRoundTrip(s: seq<Unit>, after: seq<Unit>)
    ensures ParseString(EscapedTo(s, [0x22] + after)) == Some(Parsed(s, after))
    decreases |s|
  {
    hide Escaped, ParseUnit;
    if s == [] {
      assert ([0x22] + after)[1..] == after;
    } else {
      UnitRoundTrip(s[0], EscapedTo(s[1..], [0x22] + after));
      StringRoundTrip(s[1..], after);
      assert [s[0]] + s[1..] == s;
    }
  }

  function Digits(n: nat): seq<Unit> {
    DigitsTo(n, [])
  }

  lemma {:induction false} DigitsFollowed(n: nat, after: seq<Unit>, more: seq<Unit>)
    ensures DigitsTo(n, after + more) == DigitsTo(n, after) + more
    decreases n
  {
    var last := [0x30 + n % 10];
    assert last + (after + more) == last + after + more;
    if n >= 10 {
      DigitsFollowed(n / 10, last + after, more);
    }
  }

  lemma {:induction false} DigitsSpell(n: nat)
    ensures Digits(n) != [] && AllDigits(Digits(n)) && DecimalValue(Digits(n)) == n
    ensures Digits(n)[0] == 0x30 ==> n == 0 && |Digits(n)| == 1
    decreases n
  {
    if n >= 10 {
      DigitsSpell(n / 10);
      DigitsFollowed(n / 10, [], [0x30 + n % 10]);
      assert [] + [0x30 + n % 10] == [0x30 + n % 10] == [0x30 + n % 10] + [];
      var ds := Digits(n);
      assert ds == Digits(n / 10) + [0x30 + n % 10];
      assert ds[..|ds| - 1] == Digits(n / 10);
    } else {
      var ds := Digits(n);
      assert ds == [0x30 + n];
      assert ds[..0] == [];
    }
  }

  /** What follows does not continue a number. */
  predicate EndsNumber(after: seq<Unit>) {
    after == [] || !NumberUnit(after[0])
  }

  lemma {:induction false} RunStops(digits: seq<Unit>, after: seq<Unit>)
    requires (forall i :: 0 <= i < |digits| ==> NumberUnit(digits[i])) && EndsNumber(after)
    ensures NumberRun(digits + after) == |digits|
    decreases |digits|
  {
    if digits == [] {
      assert digits + after == after;
    } else {
      assert (digits + after)[1..] == digits[1..] + after;
      RunStops(digits[1..], after);
    }
  }

  lemma IntegerRoundTrip(n: int, after: seq<Unit>)
    requires EndsNumber(after)
    ensures var s := PrintTo(Integer(n), after);
            s != [] && (Digit(s[0]) || s[0] == MINUS) && ParseInteger(s) == Some(Parsed(Integer(n), after))
  {
    hide NumberRun, DecimalValue, DigitsTo;
    var magnitude: nat := if n < 0 then -n else n;
    var ds := Digits(magnitude);
    DigitsSpell(magnitude);
    DigitsFollowed(magnitude, [], after);
    assert [] + after == after;
    var text := if n < 0 then [MINUS] + ds else ds;
    RunStops(text, after);
    var s := PrintTo(Integer(n), after);
    assert s == text + after;
    assert s[..|text|] == text && s[|text|..] == after;
    assert n < 0 ==> s[1..|text|] == ds;
  }

  /** A printed value starts with neither a blank nor a closing bracket. */
  lemma FirstUnit(v: Json, after: seq<Unit>)
    ensures var s := PrintTo(v, after); s != [] && !Blank(s[0]) && s[0] != 0x5D && s[0] != 0x7D
  {
    if v.Integer? {
      var magnitude: nat := if v.n < 0 then -v.n else v.n;
      DigitsSpell(magnitude);
      DigitsFollowed(magnitude, [], after);
      assert [] + after == after;
      hide DigitsTo;
      assert Digit(Digits(magnitude)[0]);
    }
  }

  lemma NoBlanks(s: seq<Unit>)
    requires s == [] || !Blank(s[0])
    ensures SkipBlanks(s) == s
  {
  }

  /**
   For every value, and any text behind it that does not continue a printed number: parsing
   consumes exactly what was printed and gives the value back.
   */
  lemma {:induction false} ValueRoundTrip(v: Json, after: seq<Unit>)
    requires v.Integer? ==> EndsNumber(after)
    ensures ParseValue(PrintTo(v, after)) == Some(Parsed(v, after))
    decreases v, 0
  {
    hide DigitsTo, ParseInteger, EscapedTo, ParseString, ItemsTo, MembersTo, ParseItems, ParseMembers, SkipBlanks;
    var s := PrintTo(v, after);
    FirstUnit(v, after);
    NoBlanks(s);
    match v
    case Null => assert s[4..] == after && s[..4] == NULL;
    case Bool(b) => assert if b then s[4..] == after && s[..4] == TRUE else s[5..] == after && s[..5] == FALSE;
    case Integer(n) => IntegerRoundTrip(n, after);
    case Text(text) =>
      StringRoundTrip(text, after);
      assert s[1..] == EscapedTo(text, [0x22] + after);
    case List(items) =>
      assert s[1..] == ItemsTo(items, [0x5D] + after);
      ListRoundTrip(items, after);
    case Object(members) =>
      assert s[1..] == MembersTo(members, [0x7D] + after);
      ObjectRoundTrip(members, after);
  }

  lemma ListRoundTrip(items: seq<Json>, after: seq<Unit>)
    ensures var s := SkipBlanks(ItemsTo(items, [0x5D] + after));
            && s != []
            && (if items == [] then s[0] == 0x5D && s[1..] == after
                else s[0] != 0x5D && ParseItems(s) == Some(Parsed(items, after)))
    decreases items, 2
  {
    hide PrintTo, ParseItems, SkipBlanks;
    if items == [] {
      NoBlanks([0x5D] + after);
    } else {
      FirstUnit(items[0], if |items| == 1 then [0x5D] + after else [0x2C] + ItemsTo(items[1..], [0x5D] + after));
      NoBlanks(ItemsTo(items, [0x5D] + after));
      ItemsRoundTrip(items, after);
    }
  }

  lemma {:induction false} ItemsRoundTrip(items: seq<Json>, after: seq<Unit>)
    requires items != []
    ensures ParseItems(ItemsTo(items, [0x5D] + after)) == Some(Parsed(items, after))
    decreases items, 1
  {
    hide PrintTo, ParseValue, SkipBlanks;
    var tail := if |items| == 1 then [0x5D] + after else [0x2C] + ItemsTo(items[1..], [0x5D] + after);
    ValueRoundTrip(items[0], tail);
    NoBlanks(tail);
    assert [items[0]] + items[1..] == items;
    if |items| == 1 {
      assert [items[0]] == items;
      assert tail[1..] == after;
    } else {
      assert tail[1..] == ItemsTo(items[1..], [0x5D] + after);
      ItemsRoundTrip(items[1..], after);
    }
  }

  lemma ObjectRoundTrip(members: seq<Member>, after: seq<Unit>)
    ensures var s := SkipBlanks(MembersTo(members, [0x7D] + after));
            && s != []
            && (if members == [] then s[0] == 0x7D && s[1..] == after
                else s[0] != 0x7D && ParseMembers(s) == Some(Parsed(members, after)))
    decreases members, 3
  {
    hide PrintTo, ParseMembers, SkipBlanks, EscapedTo;
    NoBlanks(MembersTo(members, [0x7D] + after));
    if members == [] {
      assert ([0x7D] + after)[1..] == after;
    } else {
      MembersRoundTrip(members, after);
    }
  }

  lemma MemberRoundTrip(m: Member, tail: seq<Unit>)
    requires EndsNumber(tail)
    ensures ParseMember(QuotedTo(m.key, [0x3A] + PrintTo(m.value, tail))) == Some(Parsed(m, tail))
    decreases m, 1
  {
    hide PrintTo, ParseValue, SkipBlanks, ParseString, EscapedTo;
    var value := [0x3A] + PrintTo(m.value, tail);
    var s := QuotedTo(m.key, value);
    NoBlanks(s);
    StringRoundTrip(m.key, value);
    assert s[1..] == EscapedTo(m.key, [0x22] + value);
    NoBlanks(value);
    assert value[1..] == PrintTo(m.value, tail);
    ValueRoundTrip(m.value, tail);
  }

  lemma {:induction false} MembersRoundTrip(members: seq<Member>, after: seq<Unit>)
    requires members != []
    ensures ParseMembers(MembersTo(members, [0x7D] + after)) == Some(Parsed(members, after))
    decreases members, 2
  {
    hide PrintTo, ParseMember, SkipBlanks, QuotedTo;
    var tail := if |members| == 1 then [0x7D] + after else [0x2C] + MembersTo(members[1..], [0x7D] + after);
    MemberRoundTrip(members[0], tail);
    NoBlanks(tail);
    assert [members[0]] + members[1..] == members;
    if |members| == 1 {
      assert [members[0]] == members;
      assert tail[1..] == after;
    } else {
      assert tail[1..] == MembersTo(members[1..], [0x7D] + after);
      MembersRoundTrip(members[1..], after);
    }
  }

  lemma {:induction false} RunContinues(digits: seq<Unit>, after: seq<Unit>)
    requires (forall i :: 0 <= i < |digits| ==> NumberUnit(digits[i])) && !EndsNumber(after)
    ensures NumberRun(digits + after) > |digits|
    decreases |digits|
  {
    if digits == [] {
      assert digits + after == after;
    } else {
      assert (digits + after)[1..] == digits[1..] + after;
      RunContinues(digits[1..], after);
    }
  }

  /** … and the proviso is exact: a number followed by a number character is not read back. */
  lemma RoundTripExactly(v: Json, after: seq<Unit>)
    ensures ParseValue(PrintTo(v, after)) == Some(Parsed(v, after)) <==> (v.Integer? ==> EndsNumber(after))
  {
    hide NumberRun, DecimalValue, DigitsTo, PrintTo, ParseValue;
    if v.Integer? ==> EndsNumber(after) {
      ValueRoundTrip(v, after);
    } else {
      FirstUnit(v, after);
      NumberContinues(v.n, after);
      NoBlanks(PrintTo(v, after));
      ParsesNumber(PrintTo(v, after));
    }
  }

  lemma ParsesNumber(s: seq<Unit>)
    requires s != [] && (Digit(s[0]) || s[0] == MINUS) && SkipBlanks(s) == s
    ensures ParseValue(s) == ParseInteger(s)
  {
    hide ParseInteger;
  }

  lemma NumberContinues(n: int, after: seq<Unit>)
    requires !EndsNumber(after)
    ensures var s := PrintTo(Integer(n), after);
            && s != [] && (Digit(s[0]) || s[0] == MINUS)
            && (ParseInteger(s).Some? ==> |ParseInteger(s).value.rest| < |after|)
  {
    hide NumberRun, DecimalValue, DigitsTo;
    var magnitude: nat := if n < 0 then -n else n;
    var ds := Digits(magnitude);
    DigitsSpell(magnitude);
    DigitsFollowed(magnitude, [], after);
    assert [] + after == after;
    var text := if n < 0 then [MINUS] + ds else ds;
    RunContinues(text, after);
    assert PrintTo(Integer(n), after) == text + after;
  }

  /** The printer is injective: texts of different values differ. */
  lemma PrintedIsInjective(v: Json, w: Json)
    requires Printed(v) == Printed(w)
    ensures v == w
  {
    hide PrintTo, ParseValue;
    ValueRoundTrip(v, []);
    ValueRoundTrip(w, []);
  }

  /* ---------- the printer as it appends to its builder ---------- */

  lemma {:induction false} EscapedFollowed(s: seq<Unit>, after: seq<Unit>, more: seq<Unit>)
    ensures EscapedTo(s, after + more) == EscapedTo(s, after) + more
    decreases |s|
  {
    hide Escaped;
    if s != [] {
      EscapedFollowed(s[1..], after, more);
      assert Escaped(s[0]) + (EscapedTo(s[1..], after) + more) == Escaped(s[0]) + EscapedTo(s[1..], after) + more;
    }
  }

  lemma QuotedFollowed(s: seq<Unit>, after: seq<Unit>, more: seq<Unit>)
    ensures QuotedTo(s, after + more) == QuotedTo(s, after) + more
  {
    EscapedFollowed(s, [0x22] + after, more);
    hide EscapedTo;
    assert [0x22] + (after + more) == [0x22] + after + more;
    assert [0x22] + (EscapedTo(s, [0x22] + after) + more) == [0x22] + EscapedTo(s, [0x22] + after) + more;
  }

  /** Text printed after a value is appended to it. */
  lemma {:induction false} PrintFollowed(v: Json, after: seq<Unit>, more: seq<Unit>)
    ensures PrintTo(v, after + more) == PrintTo(v, after) + more
    decreases v, 0
  {
    hide DigitsTo, QuotedTo, ItemsTo, MembersTo;
    match v
    case Null => assert NULL + (after + more) == NULL + after + more;
    case Bool(b) => assert (if b then TRUE else FALSE) + (after + more) == (if b then TRUE else FALSE) + after + more;
    case Integer(n) =>
      var magnitude: nat := if n < 0 then -n else n;
      DigitsFollowed(magnitude, after, more);
      assert [MINUS] + (DigitsTo(magnitude, after) + more) == [MINUS] + DigitsTo(magnitude, after) + more;
    case Text(s) => QuotedFollowed(s, after, more);
    case List(items) =>
      ItemsFollowed(items, [0x5D] + after, more);
      assert [0x5D] + (after + more) == [0x5D] + after + more;
      assert [0x5B] + (ItemsTo(items, [0x5D] + after) + more) == [0x5B] + ItemsTo(items, [0x5D] + after) + more;
    case Object(members) =>
      MembersFollowed(members, [0x7D] + after, more);
      assert [0x7D] + (after + more) == [0x7D] + after + more;
      assert [0x7B] + (MembersTo(members, [0x7D] + after) + more) == [0x7B] + MembersTo(members, [0x7D] + after) + more;
  }

  lemma {:induction false} ItemsFollowed(items: seq<Json>, after: seq<Unit>, more: seq<Unit>)
    ensures ItemsTo(items, after + more) == ItemsTo(items, after) + more
    decreases items, 1
  {
    hide PrintTo;
    if |items| == 1 {
      PrintFollowed(items[0], after, more);
    } else if |items| > 1 {
      ItemsFollowed(items[1..], after, more);
      var tail := ItemsTo(items[1..], after);
      assert [0x2C] + (tail + more) == [0x2C] + tail + more;
      PrintFollowed(items[0], [0x2C] + tail, more);
    }
  }

  lemma {:induction false} MembersFollowed(members: seq<Member>, after: seq<Unit>, more: seq<Unit>)
    ensures MembersTo(members, after + more) == MembersTo(members, after) + more
    decreases members, 1
  {
    hide PrintTo, QuotedTo;
    if members != [] {
      var key, value := members[0].key, members[0].value;
      var tail := if |members| == 1 then after else [0x2C] + MembersTo(members[1..], after);
      if |members| > 1 {
        MembersFollowed(members[1..], after, more);
        assert [0x2C] + (MembersTo(members[1..], after) + more) == [0x2C] + MembersTo(members[1..], after) + more;
      }
      PrintFollowed(value, tail, more);
      assert [0x3A] + (PrintTo(value, tail) + more) == [0x3A] + PrintTo(value, tail) + more;
      QuotedFollowed(key, [0x3A] + PrintTo(value, tail), more);
    }
  }

  lemma PrintedThen(v: Json, after: seq<Unit>)
    ensures PrintTo(v, after) == Printed(v) + after
  {
    PrintFollowed(v, [], after);
    assert [] + after == after;
  }

  lemma QuotedThen(s: seq<Unit>, after: seq<Unit>)
    ensures QuotedTo(s, after) == QuotedTo(s, []) + after
  {
    QuotedFollowed(s, [], after);
    assert [] + after == after;
  }

  /** `quote` of a string that is not null. */
  method Quote(value: seq<Unit>) returns (text: seq<Unit>)
    ensures text == QuotedTo(value, [])
  {
    hide Escaped;
    text := [0x22];
    for index := 0 to |value|
      invariant text + EscapedTo(value[index..], [0x22] + []) == QuotedTo(value, [])
    {
      assert value[index..][1..] == value[index + 1..];
      Associative(text, Escaped(value[index]), EscapedTo(value[index + 1..], [0x22] + []));
      text := text + Escaped(value[index]);
    }
    assert text + ([0x22] + []) == text + [0x22];
    text := text + [0x22];
  }

  /** The parts, with commas between them. */
  function Joined(parts: seq<seq<Unit>>): seq<Unit> {
    if parts == [] then [] else if |parts| == 1 then parts[0] else parts[0] + [0x2C] + Joined(parts[1..])
  }

  function ItemTexts(items: seq<Json>): seq<seq<Unit>> {
    seq(|items|, i requires 0 <= i < |items| => Printed(items[i]))
  }

  function MemberTexts(members: seq<Member>): seq<seq<Unit>> {
    seq(|members|, i requires 0 <= i < |members| => Printed(Text(members[i].key)) + [0x3A] + Printed(members[i].value))
  }

  lemma {:induction false} ItemsJoined(items: seq<Json>, after: seq<Unit>)
    ensures ItemsTo(items, after) == Joined(ItemTexts(items)) + after
    decreases |items|
  {
    hide PrintTo;
    var texts := ItemTexts(items);
    if items == [] {
      assert [] + after == after;
    } else if |items| == 1 {
      PrintedThen(items[0], after);
    } else {
      var tail := [0x2C] + ItemsTo(items[1..], after);
      ItemsJoined(items[1..], after);
      assert texts[1..] == ItemTexts(items[1..]);
      PrintedThen(items[0], tail);
      assert texts[0] + ([0x2C] + (Joined(texts[1..]) + after)) == texts[0] + [0x2C] + Joined(texts[1..]) + after;
    }
  }

  lemma MemberThen(member: Member, after: seq<Unit>)
    ensures QuotedTo(member.key, [0x3A] + PrintTo(member.value, after)) == Printed(Text(member.key)) + [0x3A] + Printed(member.value) + after
  {
    var key, value := Printed(Text(member.key)), Printed(member.value);
    assert key == QuotedTo(member.key, []);
    hide PrintTo, QuotedTo;
    PrintedThen(member.value, after);
    QuotedThen(member.key, [0x3A] + PrintTo(member.value, after));
    assert key + ([0x3A] + (value + after)) == key + [0x3A] + value + after;
  }

  lemma {:induction false} MembersJoined(members: seq<Member>, after: seq<Unit>)
    ensures MembersTo(members, after) == Joined(MemberTexts(members)) + after
    decreases |members|
  {
    hide PrintTo, QuotedTo;
    var texts := MemberTexts(members);
    if members == [] {
      assert [] + after == after;
    } else if |members| == 1 {
      MemberThen(members[0], after);
    } else {
      var tail := [0x2C] + MembersTo(members[1..], after);
      MembersJoined(members[1..], after);
      assert texts[1..] == MemberTexts(members[1..]);
      MemberThen(members[0], tail);
      assert texts[0] + ([0x2C] + (Joined(texts[1..]) + after)) == texts[0] + [0x2C] + Joined(texts[1..]) + after;
    }
  }

  /** A list or an object is the texts of its parts, joined by commas, in brackets; nothing else is added. */
  lemma PrintedParts(items: seq<Json>, members: seq<Member>)
    ensures Printed(List(items)) == [0x5B] + Joined(ItemTexts(items)) + [0x5D]
    ensures Printed(Object(members)) == [0x7B] + Joined(MemberTexts(members)) + [0x7D]
  {
    hide ItemsTo, MembersTo, ItemTexts, MemberTexts, Joined;
    assert [0x5D] + [] == [0x5D] && [0x7D] + [] == [0x7D];
    ItemsJoined(items, [0x5D]);
    MembersJoined(members, [0x7D]);
    assert [0x5B] + (Joined(ItemTexts(items)) + [0x5D]) == [0x5B] + Joined(ItemTexts(items)) + [0x5D];
    assert [0x7B] + (Joined(MemberTexts(members)) + [0x7D]) == [0x7B] + Joined(MemberTexts(members)) + [0x7D];
  }

  /** What is still to be appended before item `i`. */
  function ItemsLeft(items: seq<Json>, i: nat): seq<Unit>
    requires i <= |items|
  {
    if i == |items| then [0x5D] else (if i > 0 then [0x2C] else []) + ItemsTo(items[i..], [0x5D])
  }

  function MembersLeft(members: seq<Member>, i: nat): seq<Unit>
    requires i <= |members|
  {
    if i == |members| then [0x7D] else (if i > 0 then [0x2C] else []) + MembersTo(members[i..], [0x7D])
  }

  lemma ItemsLeftStep(items: seq<Json>, i: nat)
    requires i < |items|
    ensures ItemsLeft(items, i) == (if i > 0 then [0x2C] else []) + (Printed(items[i]) + ItemsLeft(items, i + 1))
  {
    hide PrintTo;
    var rest := items[i..];
    assert rest[1..] == items[i + 1..];
    PrintedThen(items[i], ItemsLeft(items, i + 1));
  }

  lemma MembersLeftStep(members: seq<Member>, i: nat)
    requires i < |members|
    ensures MembersLeft(members, i)
            == (if i > 0 then [0x2C] else [])
               + (QuotedTo(members[i].key, []) + ([0x3A] + (Printed(members[i].value) + MembersLeft(members, i + 1))))
  {
    hide PrintTo, QuotedTo;
    var rest := members[i..];
    assert rest[1..] == members[i + 1..];
    PrintedThen(members[i].value, MembersLeft(members, i + 1));
    QuotedThen(members[i].key, [0x3A] + PrintTo(members[i].value, MembersLeft(members, i + 1)));
  }

  lemma ListStarts(items: seq<Json>)
    ensures [0x5B] + ItemsLeft(items, 0) == Printed(List(items))
  {
    assert [0x5D] + [] == [0x5D];
    assert items[0..] == items;
    assert [] + ItemsTo(items, [0x5D]) == ItemsTo(items, [0x5D]);
  }

  lemma ListEnds(items: seq<Json>)
    ensures ItemsLeft(items, |items|) == [0x5D]
  {
  }

  lemma ObjectStarts(members: seq<Member>)
    ensures [0x7B] + MembersLeft(members, 0) == Printed(Object(members))
  {
    assert [0x7D] + [] == [0x7D];
    assert members[0..] == members;
    assert [] + MembersTo(members, [0x7D]) == MembersTo(members, [0x7D]);
  }

  lemma ObjectEnds(members: seq<Member>)
    ensures MembersLeft(members, |members|) == [0x7D]
  {
  }

  /** `toJson`, appending item by item with a flag for the first. A number is its own `toString`. */
  method ToJson(value: Json) returns (text: seq<Unit>)
    ensures text == Printed(value)
    decreases value
  {
    hide DigitsTo, QuotedTo, ItemsTo, MembersTo, ItemsLeft, MembersLeft;
    match value
    case Null => text := NULL; assert NULL + [] == NULL;
    case Bool(b) =>
      text := if b then TRUE else FALSE;
      assert text + [] == text;
    case Integer(_) => text := PrintTo(value, []);
    case Text(s) => text := Quote(s);
    case List(items) =>
      var builder: seq<Unit> := [0x5B];
      var first := true;
      ListStarts(items);
      for i := 0 to |items|
        invariant first <==> i == 0
        invariant builder + ItemsLeft(items, i) == Printed(value)
      {
        ItemsLeftStep(items, i);
        ghost var before := builder;
        if !first {
          builder := builder + [0x2C];
        }
        first := false;
        var item := ToJson(items[i]);
        Associative(before, if i > 0 then [0x2C] else [], item + ItemsLeft(items, i + 1));
        Associative(builder, item, ItemsLeft(items, i + 1));
        assert before + [] == before;
        builder := builder + item;
      }
      ListEnds(items);
      text := builder + [0x5D];
    case Object(members) =>
      var builder: seq<Unit> := [0x7B];
      var first := true;
      ObjectStarts(members);
      for i := 0 to |members|
        invariant first <==> i == 0
        invariant builder + MembersLeft(members, i) == Printed(value)
      {
        MembersLeftStep(members, i);
        ghost var before, left := builder, MembersLeft(members, i + 1);
        if !first {
          builder := builder + [0x2C];
        }
        first := false;
        assert before + [] == before;
        var key := Quote(members[i].key);
        Associative(before, if i > 0 then [0x2C] else [], key + ([0x3A] + (Printed(members[i].value) + left)));
        Associative(builder, key, [0x3A] + (Printed(members[i].value) + left));
        builder := builder + key;
        Associative(builder, [0x3A], Printed(members[i].value) + left);
        builder := builder + [0x3A];
        var item := ToJson(members[i].value);
        Associative(builder, item, left);
        builder := builder + item;
      }
      ObjectEnds(members);
      text := builder + [0x7D];
  }
}

/**
 Splitting, printing and rewriting a Windows command line. The splitter only toggles on double
 quotes while the printer escapes them, so exactly the quote-free arguments survive a round trip.
 What counts as whitespace, as a digit and as an executable's name is left open.
 */
module CommandLine {

  datatype Alphabet = Alphabet(space: char -> bool, digit: char -> bool, executable: string -> bool)

  /** A blank separates arguments and the quote character does not. */
  ghost predicate Sound(a: Alphabet) {
    a.space(' ') && !a.space('"')
  }

  /** The splitter's variables. */
  datatype Scan = Scan(tokens: seq<string>, current: string, inQuotes: bool, started: bool)

  const START := Scan([], "", false, false)

  function Step(a: Alphabet, st: Scan, c: char): Scan {
    if c == '"' then st.(inQuotes := !st.inQuotes, started := true)
    else if a.space(c) && !st.inQuotes then
      (if st.started then Scan(st.tokens + [st.current], "", st.inQuotes, false) else st)
    else st.(current := st.current + [c], started := true)
  }

  function ScanAll(a: Alphabet, st: Scan, line: string): Scan
    decreases |line|
  {
    if line == "" then st else ScanAll(a, Step(a, st, line[0]), line[1..])
  }

  function Finished(st: Scan): seq<string> {
    if st.started then st.tokens + [st.current] else st.tokens
  }

  function Tokens(a: Alphabet, line: string): seq<string> {
    Finished(ScanAll(a, START, line))
  }

  method Tokenize(a: Alphabet, line: string) returns (tokens: seq<string>)
    ensures tokens == Tokens(a, line)
  {
    tokens := [];
    var current, inQuotes, started, index := "", false, false, 0;
    while index < |line|
      invariant 0 <= index <= |line|
      invariant ScanAll(a, Scan(tokens, current, inQuotes, started), line[index..]) == ScanAll(a, START, line)
    {
      var character := line[index];
      assert line[index..][1..] == line[index + 1..];
      if character == '"' {
        inQuotes := !inQuotes;
        started := true;
        index := index + 1;
        continue;
      }
      if a.space(character) && !inQuotes {
        if started {
          tokens := tokens + [current];
          current := "";
          started := false;
        }
        index := index + 1;
        continue;
      }
      current := current + [character];
      started := true;
      index := index + 1;
    }
    if started {
      tokens := tokens + [current];
    }
  }

  /* ---------- what the tokens of a line are ---------- */

  function Quotes(s: string): nat {
    if s == "" then 0 else (if s[0] == '"' then 1 else 0) + Quotes(s[1..])
  }

  /** A quote opened in `s` is not closed in it. */
  predicate Opened(s: string) {
    Quotes(s) % 2 == 1
  }

  function Unquoted(s: string): string {
    if s == "" then "" else (if s[0] == '"' then "" else [s[0]]) + Unquoted(s[1..])
  }

  lemma {:induction false} ScanOpens(a: Alphabet, st: Scan, s: string)
    ensures ScanAll(a, st, s).inQuotes == (st.inQuotes != Opened(s))
    ensures (st.started || st.current == "") ==> ScanAll(a, st, s).started || ScanAll(a, st, s).current == ""
    decreases |s|
  {
    if s != "" {
      ScanOpens(a, Step(a, st, s[0]), s[1..]);
    }
  }

  function Behind(tokens: seq<string>, st: Scan): Scan {
    st.(tokens := tokens + st.tokens)
  }

  lemma {:induction false} ScanBehind(a: Alphabet, tokens: seq<string>, st: Scan, s: string)
    ensures ScanAll(a, Behind(tokens, st), s) == Behind(tokens, ScanAll(a, st, s))
    decreases |s|
  {
    if s != "" {
      StepBehind(a, tokens, st, s[0]);
      hide Step, Behind;
      ScanBehind(a, tokens, Step(a, st, s[0]), s[1..]);
    }
  }

  lemma StepBehind(a: Alphabet, tokens: seq<string>, st: Scan, c: char)
    ensures Step(a, Behind(tokens, st), c) == Behind(tokens, Step(a, st, c))
  {
    assert tokens + (st.tokens + [st.current]) == tokens + st.tokens + [st.current];
  }

  /** A blank outside quotes separates: the tokens are those before it and those behind it. */
  lemma TokensSplit(a: Alphabet, x: string, c: char, y: string)
    requires a.space(c) && c != '"' && !Opened(x)
    ensures Tokens(a, x + [c] + y) == Tokens(a, x) + Tokens(a, y)
  {
    ScanAppends(a, START, x + [c], y);
    ScanAppends(a, START, x, [c]);
    ScanOpens(a, START, x);
    var st := ScanAll(a, START, x);
    assert ScanAll(a, st, [c]) == Step(a, st, c) == Behind(Finished(st), START);
    ScanBehind(a, Finished(st), START, y);
    var rest := ScanAll(a, START, y);
    assert Finished(st) + (rest.tokens + [rest.current]) == Finished(st) + rest.tokens + [rest.current];
  }

  lemma {:induction false} ScanChunk(a: Alphabet, st: Scan, s: string)
    requires forall i :: 0 <= i < |s| && a.space(s[i]) && s[i] != '"' ==> st.inQuotes != Opened(s[..i])
    ensures var r := ScanAll(a, st, s);
            r.tokens == st.tokens && r.current == st.current + Unquoted(s) && r.started == (st.started || s != "")
    decreases |s|
  {
    if s != "" {
      var first, rest := s[0], s[1..];
      assert a.space(first) && first != '"' ==> st.inQuotes by {
        assert Quotes(s[..0]) == 0;
      }
      var next := Step(a, st, first);
      forall i | 0 <= i < |rest| && a.space(rest[i]) && rest[i] != '"'
        ensures next.inQuotes != Opened(rest[..i])
      {
        assert s[..i + 1][0] == first && s[..i + 1][1..] == rest[..i] && s[i + 1] == rest[i];
      }
      ScanChunk(a, next, rest);
      assert st.current + ([first] + Unquoted(rest)) == st.current + [first] + Unquoted(rest);
      assert "" + Unquoted(rest) == Unquoted(rest);
    }
  }

  /** A text without a blank outside quotes is one token: the text without its quotes. The empty line has none. */
  lemma OneToken(a: Alphabet, s: string)
    requires forall i :: 0 <= i < |s| && a.space(s[i]) && s[i] != '"' ==> Opened(s[..i])
    ensures Tokens(a, s) == if s == "" then [] else [Unquoted(s)]
  {
    ScanChunk(a, START, s);
    assert "" + Unquoted(s) == Unquoted(s);
  }

  /* ---------- printing arguments ---------- */

  /** `argument.replace('"', r'\\"')`. */
  function Escape(argument: string): string {
    if argument == "" then ""
    else (if argument[0] == '"' then "\\\"" else [argument[0]]) + Escape(argument[1..])
  }

  function Quote(argument: string): string {
    "\"" + Escape(argument) + "\""
  }

  predicate HasSpace(a: Alphabet, s: string) {
    exists i :: 0 <= i < |s| && a.space(s[i])
  }

  predicate QuoteFree(s: string) {
    '"' !in s
  }

  predicate AllQuoteFree(arguments: seq<string>) {
    forall i :: 0 <= i < |arguments| ==> QuoteFree(arguments[i])
  }

  function Format(a: Alphabet, argument: string): string {
    if argument == "" then "\"\""
    else if HasSpace(a, argument) || !QuoteFree(argument) then Quote(argument)
    else argument
  }

  /** The quote characters are what escaping adds a backslash for. */
  lemma {:induction false} EscapeAdds(argument: string)
    ensures |Escape(argument)| == |argument| + multiset(argument)['"']
    decreases |argument|
  {
    if argument != "" {
      EscapeAdds(argument[1..]);
      assert argument == [argument[0]] + argument[1..];
    }
  }

  /** The text of an argument: itself, itself in quotes, or in quotes and a backslash longer for every quote in it. */
  lemma FormattedExactly(a: Alphabet, argument: string)
    ensures argument != "" && !HasSpace(a, argument) && QuoteFree(argument) ==> Format(a, argument) == argument
    ensures QuoteFree(argument) && (argument == "" || HasSpace(a, argument)) ==> Format(a, argument) == "\"" + argument + "\""
    ensures !QuoteFree(argument) ==>
              var text := Format(a, argument);
              |text| == |argument| + multiset(argument)['"'] + 2 && text[0] == '"' && text[|text| - 1] == '"'
  {
    EscapeAdds(argument);
    if QuoteFree(argument) {
      NothingEscaped(argument);
    }
  }

  /** The formatted arguments joined by single blanks. */
  function Rebuild(a: Alphabet, arguments: seq<string>): string {
    if arguments == [] then ""
    else if |arguments| == 1 then Format(a, arguments[0])
    else Format(a, arguments[0]) + " " + Rebuild(a, arguments[1..])
  }

  lemma {:induction false} ScanAppends(a: Alphabet, st: Scan, s: string, t: string)
    ensures ScanAll(a, st, s + t) == ScanAll(a, ScanAll(a, st, s), t)
    decreases |s|
  {
    if s == "" {
      assert s + t == t;
    } else {
      assert (s + t)[0] == s[0] && (s + t)[1..] == s[1..] + t;
      ScanAppends(a, Step(a, st, s[0]), s[1..], t);
    }
  }

  /** Characters that are neither quotes nor separators where they stand are collected. */
  lemma {:induction false} Collects(a: Alphabet, st: Scan, s: string)
    requires QuoteFree(s) && (st.inQuotes || !HasSpace(a, s))
    ensures ScanAll(a, st, s) == if s == "" then st else st.(current := st.current + s, started := true)
    decreases |s|
  {
    if s != "" {
      CollectsOne(a, st, s);
      var next := st.(current := st.current + [s[0]], started := true);
      hide HasSpace, QuoteFree, Step;
      Collects(a, next, s[1..]);
      Joined(st.current, s);
    }
  }

  lemma Joined(prefix: string, s: string)
    requires s != ""
    ensures prefix + [s[0]] + s[1..] == prefix + s && (s[1..] == "" ==> prefix + [s[0]] == prefix + s)
  {
  }

  lemma CollectsOne(a: Alphabet, st: Scan, s: string)
    requires s != "" && QuoteFree(s) && (st.inQuotes || !HasSpace(a, s))
    ensures Step(a, st, s[0]) == st.(current := st.current + [s[0]], started := true)
    ensures QuoteFree(s[1..]) && (st.inQuotes || !HasSpace(a, s[1..]))
  {
    assert forall i :: 0 <= i < |s[1..]| ==> s[1..][i] == s[i + 1];
  }

  lemma {:induction false} NothingEscaped(s: string)
    requires QuoteFree(s)
    ensures Escape(s) == s
  {
    if s != "" {
      NothingEscaped(s[1..]);
      assert s == [s[0]] + s[1..];
    }
  }

  /** A printed quote-free argument is collected as itself, the empty one included. */
  lemma FormatCollected(a: Alphabet, tokens: seq<string>, argument: string)
    requires QuoteFree(argument)
    ensures ScanAll(a, Scan(tokens, "", false, false), Format(a, argument)) == Scan(tokens, argument, false, true)
  {
    var st := Scan(tokens, "", false, false);
    var inside := st.(inQuotes := true, started := true);
    assert "" + argument == argument;
    if argument == "" {
      assert ScanAll(a, st, "\"\"") == ScanAll(a, Step(a, st, '"'), "\"\""[1..]);
    } else if HasSpace(a, argument) {
      NothingEscaped(argument);
      assert Quote(argument) == "\"" + argument + "\"";
      ScanAppends(a, st, "\"" + argument, "\"");
      ScanAppends(a, st, "\"", argument);
      Collects(a, inside, argument);
    } else {
      Collects(a, st, argument);
    }
  }

  /** A blank outside quotes ends the token. */
  lemma Separates(a: Alphabet, tokens: seq<string>, token: string)
    requires Sound(a)
    ensures ScanAll(a, Scan(tokens, token, false, true), " ") == Scan(tokens + [token], "", false, false)
  {
    assert " "[1..] == "";
  }

  lemma {:induction false} RebuildCollected(a: Alphabet, tokens: seq<string>, arguments: seq<string>)
    requires Sound(a) && AllQuoteFree(arguments) && arguments != []
    ensures ScanAll(a, Scan(tokens, "", false, false), Rebuild(a, arguments))
            == Scan(tokens + arguments[..|arguments| - 1], arguments[|arguments| - 1], false, true)
    decreases |arguments|
  {
    hide Format, HasSpace, QuoteFree;
    var st, first, rest := Scan(tokens, "", false, false), arguments[0], arguments[1..];
    FormatCollected(a, tokens, first);
    if rest == [] {
      assert tokens + arguments[..0] == tokens;
    } else {
      assert AllQuoteFree(rest) by {
        assert forall i :: 0 <= i < |rest| ==> rest[i] == arguments[i + 1];
      }
      ScanAppends(a, st, Format(a, first) + " ", Rebuild(a, rest));
      ScanAppends(a, st, Format(a, first), " ");
      Separates(a, tokens, first);
      RebuildCollected(a, tokens + [first], rest);
      assert tokens + [first] + rest[..|rest| - 1] == tokens + arguments[..|arguments| - 1];
    }
  }

  predicate ScanQuoteFree(st: Scan) {
    AllQuoteFree(st.tokens) && QuoteFree(st.current)
  }

  lemma {:induction false} ScanKeepsQuoteFree(a: Alphabet, st: Scan, line: string)
    requires ScanQuoteFree(st)
    ensures ScanQuoteFree(ScanAll(a, st, line))
    decreases |line|
  {
    if line != "" {
      ScanKeepsQuoteFree(a, Step(a, st, line[0]), line[1..]);
    }
  }

  /** No token of any command line contains a quote. */
  lemma TokensQuoteFree(a: Alphabet, line: string)
    ensures AllQuoteFree(Tokens(a, line))
  {
    ScanKeepsQuoteFree(a, START, line);
  }

  lemma RoundTrip(a: Alphabet, arguments: seq<string>)
    requires Sound(a) && AllQuoteFree(arguments)
    ensures Tokens(a, Rebuild(a, arguments)) == arguments
  {
    if arguments != [] {
      RebuildCollected(a, [], arguments);
      hide Rebuild, ScanAll, AllQuoteFree;
      LastRejoined(arguments);
    }
  }

  lemma LastRejoined(arguments: seq<string>)
    requires arguments != []
    ensures [] + arguments[..|arguments| - 1] + [arguments[|arguments| - 1]] == arguments
  {
  }

  /** Printing and splitting gives the arguments back if and only if none of them contains a quote. */
  lemma RoundTripExactly(a: Alphabet, arguments: seq<string>)
    requires Sound(a)
    ensures Tokens(a, Rebuild(a, arguments)) == arguments <==> AllQuoteFree(arguments)
  {
    hide Rebuild, Tokens, AllQuoteFree;
    if AllQuoteFree(arguments) {
      RoundTrip(a, arguments);
    }
    TokensQuoteFree(a, Rebuild(a, arguments));
  }

  /* ---------- arguments that contain quotes ---------- */

  /** The argument with a backslash for every quote. */
  function Backslashed(s: string): (r: string)
    ensures |r| == |s|
  {
    if s == "" then "" else [if s[0] == '"' then '\\' else s[0]] + Backslashed(s[1..])
  }

  /** Some whitespace of the printed argument is outside quotes: it has an odd number of quotes before it. */
  predicate Exposed(a: Alphabet, s: string, inQuotes: bool) {
    s != ""
    && if s[0] == '"' then (!inQuotes && a.space('\\')) || Exposed(a, s[1..], !inQuotes)
       else (!inQuotes && a.space(s[0])) || Exposed(a, s[1..], inQuotes)
  }

  /** Two steps read an escaped quote. */
  lemma ReadsEscape(a: Alphabet, st: Scan, s: string)
    requires s != ""
    ensures ScanAll(a, st, Escape(s))
            == if s[0] == '"' then ScanAll(a, Step(a, Step(a, st, '\\'), '"'), Escape(s[1..]))
               else ScanAll(a, Step(a, st, s[0]), Escape(s[1..]))
  {
    var rest := Escape(s[1..]);
    if s[0] == '"' {
      assert Escape(s) == ['\\', '"'] + rest;
      assert Escape(s)[1..] == ['"'] + rest && (['"'] + rest)[1..] == rest;
    } else {
      assert Escape(s)[1..] == rest;
    }
  }

  /** With nothing exposed the whole argument is collected, backslashes for quotes. */
  lemma {:induction false} CollectsEscaped(a: Alphabet, st: Scan, s: string)
    requires st.started && !Exposed(a, s, st.inQuotes)
    ensures var end := ScanAll(a, st, Escape(s));
            end.tokens == st.tokens && end.current == st.current + Backslashed(s) && end.started
    decreases |s|
  {
    if s != "" {
      ReadsEscape(a, st, s);
      var next := if s[0] == '"' then Step(a, Step(a, st, '\\'), '"') else Step(a, st, s[0]);
      CollectsEscaped(a, next, s[1..]);
      Associates(st.current, if s[0] == '"' then '\\' else s[0], Backslashed(s[1..]));
    }
  }

  lemma Associates(x: string, c: char, y: string)
    ensures x + [c] + y == x + ([c] + y)
  {
  }

  function TotalLength(tokens: seq<string>): nat {
    if tokens == [] then 0 else TotalLength(tokens[..|tokens| - 1]) + |tokens[|tokens| - 1]|
  }

  /** The characters collected so far. */
  function Collected(st: Scan): nat {
    TotalLength(st.tokens) + |st.current|
  }

  predicate Consistent(st: Scan) {
    !st.started ==> st.current == ""
  }

  lemma StepCollects(a: Alphabet, st: Scan, c: char)
    requires Consistent(st)
    ensures Consistent(Step(a, st, c))
    ensures Collected(Step(a, st, c)) == Collected(st) + if c == '"' || (a.space(c) && !st.inQuotes) then 0 else 1
    ensures Step(a, st, c).inQuotes == (if c == '"' then !st.inQuotes else st.inQuotes)
  {
    assert (st.tokens + [st.current])[..|st.tokens|] == st.tokens;
  }

  /** Exposed whitespace is lost. */
  lemma {:induction false} LosesExposed(a: Alphabet, st: Scan, s: string)
    requires Consistent(st)
    ensures var end := ScanAll(a, st, Escape(s));
            && Consistent(end) && Collected(end) <= Collected(st) + |s|
            && (Exposed(a, s, st.inQuotes) ==> Collected(end) < Collected(st) + |s|)
    decreases |s|
  {
    hide Step, Collected;
    if s != "" {
      ReadsEscape(a, st, s);
      if s[0] == '"' {
        StepCollects(a, st, '\\');
        StepCollects(a, Step(a, st, '\\'), '"');
        LosesExposed(a, Step(a, Step(a, st, '\\'), '"'), s[1..]);
      } else {
        StepCollects(a, st, s[0]);
        LosesExposed(a, Step(a, st, s[0]), s[1..]);
      }
    }
  }

  lemma FinishedLength(st: Scan)
    requires Consistent(st)
    ensures TotalLength(Finished(st)) == Collected(st)
  {
    assert (st.tokens + [st.current])[..|st.tokens|] == st.tokens;
  }

  /**
   What becomes of an argument with quotes: each quote's escape toggles the quoting and leaves its
   backslash. The argument is read back as one token with backslashes for quotes if and only if
   none of its whitespace ends up outside quotes.
   */
  lemma QuoteBecomesBackslash(a: Alphabet, argument: string)
    requires !QuoteFree(argument)
    ensures Tokens(a, Rebuild(a, [argument])) == [Backslashed(argument)] <==> !Exposed(a, argument, true)
  {
    var inside := Scan([], "", true, true);
    var body := ScanAll(a, inside, Escape(argument));
    assert Rebuild(a, [argument]) == "\"" + (Escape(argument) + "\"") by {
      assert "\"" + Escape(argument) + "\"" == "\"" + (Escape(argument) + "\"");
    }
    ScanAppends(a, START, "\"", Escape(argument) + "\"");
    ScanAppends(a, inside, Escape(argument), "\"");
    assert ScanAll(a, START, "\"") == inside;
    assert ScanAll(a, body, "\"") == Step(a, body, '"');
    LosesExposed(a, inside, argument);
    StepCollects(a, body, '"');
    FinishedLength(Step(a, body, '"'));
    if Exposed(a, argument, true) {
      assert TotalLength([Backslashed(argument)]) == |argument|;
    } else {
      CollectsEscaped(a, inside, argument);
      assert "" + Backslashed(argument) == Backslashed(argument);
    }
  }

  /** Every command line is read back from its own rebuilt form. */
  lemma RebuildingKeepsTokens(a: Alphabet, line: string)
    requires Sound(a)
    ensures Tokens(a, Rebuild(a, Tokens(a, line))) == Tokens(a, line)
  {
    TokensQuoteFree(a, line);
    RoundTripExactly(a, Tokens(a, line));
  }

  /* ---------- rewriting the parameter pairs ---------- */

  predicate IsKey(a: Alphabet, s: string) {
    s != "" && forall i :: 0 <= i < |s| ==> a.digit(s[i])
  }

  datatype Change = Change(param: string, before: string, after: string)

  /** The first argument is skipped when it names an executable. */
  function FirstKey(a: Alphabet, arguments: seq<string>): nat {
    if arguments != [] && a.executable(arguments[0]) then 1 else 0
  }

  /** `j` holds the value of a pair in the unbroken run of digit keys that starts at `first`. */
  predicate IsValue(a: Alphabet, arguments: seq<string>, first: nat, j: nat)
    decreases j
  {
    && first < j < |arguments|
    && (j - first) % 2 == 1
    && IsKey(a, arguments[j - 1])
    && (j - first > 1 ==> IsValue(a, arguments, first, j - 2))
  }

  /** Argument `j` after rewriting. */
  function Rewritten(a: Alphabet, arguments: seq<string>, values: map<string, string>, j: nat): string
    requires j < |arguments|
  {
    if IsValue(a, arguments, FirstKey(a, arguments), j) && arguments[j - 1] in values then values[arguments[j - 1]] else arguments[j]
  }

  function RewrittenAll(a: Alphabet, arguments: seq<string>, values: map<string, string>): (r: seq<string>)
    ensures |r| == |arguments|
  {
    seq(|arguments|, j requires 0 <= j < |arguments| => Rewritten(a, arguments, values, j))
  }

  /** The recorded changes: every argument before `end` whose rewritten form differs, in order. */
  function ChangesBefore(a: Alphabet, arguments: seq<string>, values: map<string, string>, end: nat): seq<Change>
    requires end <= |arguments|
  {
    if end == 0 then []
    else
      var j := end - 1;
      ChangesBefore(a, arguments, values, j)
      + (if j > 0 && Rewritten(a, arguments, values, j) != arguments[j]
         then [Change(arguments[j - 1], arguments[j], Rewritten(a, arguments, values, j))] else [])
  }

  /** Past a broken run there are no values. */
  lemma {:induction false} RunBroken(a: Alphabet, arguments: seq<string>, first: nat, index: nat, j: nat)
    requires first <= index && (index - first) % 2 == 0 && index < |arguments| && !IsKey(a, arguments[index])
    requires index < j
    ensures !IsValue(a, arguments, first, j)
    decreases j
  {
    if IsValue(a, arguments, first, j) && j != index + 1 {
      RunBroken(a, arguments, first, index, j - 2);
    }
  }

  lemma NoFurtherChanges(a: Alphabet, arguments: seq<string>, values: map<string, string>, index: nat, end: nat)
    requires index <= end <= |arguments|
    requires forall j :: index <= j < |arguments| ==> !IsValue(a, arguments, FirstKey(a, arguments), j)
    ensures ChangesBefore(a, arguments, values, end) == ChangesBefore(a, arguments, values, index)
    decreases end
  {
    if index < end {
      NoFurtherChanges(a, arguments, values, index, end - 1);
    }
  }

  /** One pair of the run: its key stays, its value is looked up, and at most one change is recorded. */
  lemma PairRewritten(a: Alphabet, arguments: seq<string>, values: map<string, string>, index: nat)
    requires FirstKey(a, arguments) <= index && (index - FirstKey(a, arguments)) % 2 == 0 && index + 1 < |arguments|
    requires index > FirstKey(a, arguments) ==> IsValue(a, arguments, FirstKey(a, arguments), index - 1)
    requires IsKey(a, arguments[index])
    ensures IsValue(a, arguments, FirstKey(a, arguments), index + 1)
    ensures Rewritten(a, arguments, values, index) == arguments[index]
    ensures var key, before := arguments[index], arguments[index + 1];
            var after := if key in values then values[key] else before;
            && Rewritten(a, arguments, values, index + 1) == after
            && ChangesBefore(a, arguments, values, index + 2)
               == ChangesBefore(a, arguments, values, index) + (if after != before then [Change(key, before, after)] else [])
  {
    hide IsKey, FirstKey;
    assert !IsValue(a, arguments, FirstKey(a, arguments), index);
    assert ChangesBefore(a, arguments, values, index + 1) == ChangesBefore(a, arguments, values, index);
  }

  /** Behind a key that is not a number, or a last key without a value, nothing is rewritten. */
  lemma RunEnds(a: Alphabet, arguments: seq<string>, values: map<string, string>, index: nat)
    requires FirstKey(a, arguments) <= index <= |arguments| && (index - FirstKey(a, arguments)) % 2 == 0
    requires index + 1 >= |arguments| || !IsKey(a, arguments[index])
    ensures forall j :: index <= j < |arguments| ==> Rewritten(a, arguments, values, j) == arguments[j]
    ensures ChangesBefore(a, arguments, values, |arguments|) == ChangesBefore(a, arguments, values, index)
  {
    hide IsKey, FirstKey;
    forall j | index <= j < |arguments|
      ensures !IsValue(a, arguments, FirstKey(a, arguments), j)
    {
      if index < j {
        RunBroken(a, arguments, FirstKey(a, arguments), index, j);
      }
    }
    NoFurtherChanges(a, arguments, values, index, |arguments|);
  }

  /** Rewriting two arguments at a time, a key and its value, until fewer are left or a key is not a number; with the changes made. */
  function Pairwise(a: Alphabet, arguments: seq<string>, values: map<string, string>): (seq<string>, seq<Change>) {
    if |arguments| < 2 || !IsKey(a, arguments[0]) then (arguments, [])
    else
      var key, before := arguments[0], arguments[1];
      var after := if key in values then values[key] else before;
      var (rest, changes) := Pairwise(a, arguments[2..], values);
      ([key, after] + rest, (if after == before then [] else [Change(key, before, after)]) + changes)
  }

  lemma PairwiseStep(a: Alphabet, arguments: seq<string>, values: map<string, string>)
    requires |arguments| >= 2 && IsKey(a, arguments[0])
    ensures var key, before := arguments[0], arguments[1];
            var after := if key in values then values[key] else before;
            && Pairwise(a, arguments, values).0 == [key, after] + Pairwise(a, arguments[2..], values).0
            && Pairwise(a, arguments, values).1
               == (if after == before then [] else [Change(key, before, after)]) + Pairwise(a, arguments[2..], values).1
  {
    hide IsKey;
  }

  lemma PairwiseStops(a: Alphabet, arguments: seq<string>, values: map<string, string>)
    requires |arguments| < 2 || !IsKey(a, arguments[0])
    ensures Pairwise(a, arguments, values) == (arguments, [])
  {
    hide IsKey;
  }

  /** From any place in the run on. */
  lemma {:induction false} PairwiseFrom(a: Alphabet, arguments: seq<string>, values: map<string, string>, index: nat)
    requires FirstKey(a, arguments) <= index <= |arguments| && (index - FirstKey(a, arguments)) % 2 == 0
    requires index > FirstKey(a, arguments) ==> IsValue(a, arguments, FirstKey(a, arguments), index - 1)
    ensures RewrittenAll(a, arguments, values)[index..] == Pairwise(a, arguments[index..], values).0
    ensures ChangesBefore(a, arguments, values, |arguments|)
            == ChangesBefore(a, arguments, values, index) + Pairwise(a, arguments[index..], values).1
    decreases |arguments| - index
  {
    hide IsKey, IsValue, Rewritten, ChangesBefore, FirstKey, Pairwise;
    var tail := arguments[index..];
    if |tail| < 2 || !IsKey(a, tail[0]) {
      RunEnds(a, arguments, values, index);
      PairwiseStops(a, tail, values);
    } else {
      PairRewritten(a, arguments, values, index);
      PairwiseFrom(a, arguments, values, index + 2);
      PairwiseStep(a, tail, values);
      assert tail[2..] == arguments[index + 2..];
      var all := RewrittenAll(a, arguments, values);
      assert all[index..] == [all[index], all[index + 1]] + all[index + 2..];
    }
  }

  /** An executable's name stays in front; what follows it, or the whole list when there is none, is rewritten in pairs. */
  lemma RewritesPairwise(a: Alphabet, arguments: seq<string>, values: map<string, string>)
    ensures var named := arguments != [] && a.executable(arguments[0]);
            var (rewritten, changes) := Pairwise(a, if named then arguments[1..] else arguments, values);
            && RewrittenAll(a, arguments, values) == (if named then [arguments[0]] else []) + rewritten
            && ChangesBefore(a, arguments, values, |arguments|) == changes
  {
    hide IsKey, IsValue, Pairwise, Rewritten, ChangesBefore;
    var first := FirstKey(a, arguments);
    StartsUnchanged(a, arguments, values);
    PairwiseFrom(a, arguments, values, first);
    var all := RewrittenAll(a, arguments, values);
    assert arguments[0..] == arguments && all == all[..first] + all[first..];
  }

  /**
   The list is rewritten in place, pair by pair from the front, up to the first key that is not
   a number: exactly the mapped values of that run are replaced, and every real change recorded.
   */
  method RewriteParams(a: Alphabet, arguments: seq<string>, values: map<string, string>) returns (rewritten: seq<string>, changes: seq<Change>)
    ensures rewritten == RewrittenAll(a, arguments, values)
    ensures changes == ChangesBefore(a, arguments, values, |arguments|)
    ensures arguments != [] && a.executable(arguments[0]) ==>
              && rewritten == [arguments[0]] + Pairwise(a, arguments[1..], values).0
              && changes == Pairwise(a, arguments[1..], values).1
    ensures arguments == [] || !a.executable(arguments[0]) ==>
              && rewritten == Pairwise(a, arguments, values).0
              && changes == Pairwise(a, arguments, values).1
  {
    RewritesPairwise(a, arguments, values);
    hide Pairwise, IsKey, IsValue, Rewritten, ChangesBefore;
    rewritten := arguments;
    changes := [];
    var index: nat := FirstKey(a, arguments);
    StartsUnchanged(a, arguments, values);
    while index + 1 < |rewritten|
      invariant FirstKey(a, arguments) <= index <= |rewritten| == |arguments| && (index - FirstKey(a, arguments)) % 2 == 0
      invariant index > FirstKey(a, arguments) ==> IsValue(a, arguments, FirstKey(a, arguments), index - 1)
      invariant forall j :: 0 <= j < index ==> rewritten[j] == Rewritten(a, arguments, values, j)
      invariant forall j :: index <= j < |arguments| ==> rewritten[j] == arguments[j]
      invariant changes == ChangesBefore(a, arguments, values, index)
    {
      var key := rewritten[index];
      if !IsKey(a, key) {
        break;
      }
      PairRewritten(a, arguments, values, index);
      var previous := rewritten[index + 1];
      if key in values {
        var replacement := values[key];
        if previous != replacement {
          rewritten := rewritten[index + 1 := replacement];
          changes := changes + [Change(key, previous, replacement)];
        }
      }
      index := index + 2;
    }
    RunEnds(a, arguments, values, index);
  }

  lemma StartsUnchanged(a: Alphabet, arguments: seq<string>, values: map<string, string>)
    ensures FirstKey(a, arguments) <= |arguments|
    ensures ChangesBefore(a, arguments, values, FirstKey(a, arguments)) == []
    ensures FirstKey(a, arguments) == 1 ==> Rewritten(a, arguments, values, 0) == arguments[0]
  {
  }

  lemma KeysKept(a: Alphabet, arguments: seq<string>, values: map<string, string>, i: nat)
    requires i < |arguments| && (i <= FirstKey(a, arguments) || (i - FirstKey(a, arguments)) % 2 == 0)
    ensures RewrittenAll(a, arguments, values)[i] == arguments[i]
  {
  }

  lemma FirstKeyKept(a: Alphabet, arguments: seq<string>, values: map<string, string>)
    ensures FirstKey(a, RewrittenAll(a, arguments, values)) == FirstKey(a, arguments)
  {
    if arguments != [] {
      KeysKept(a, arguments, values, 0);
    }
  }

  /** Rewriting moves no pair: the same positions hold values afterwards. */
  lemma {:induction false} ValuesKept(a: Alphabet, arguments: seq<string>, values: map<string, string>, j: nat)
    ensures var first := FirstKey(a, arguments);
            IsValue(a, RewrittenAll(a, arguments, values), first, j) == IsValue(a, arguments, first, j)
    decreases j
  {
    hide IsKey, FirstKey, RewrittenAll;
    var first := FirstKey(a, arguments);
    if first < j < |arguments| && (j - first) % 2 == 1 {
      KeysKept(a, arguments, values, j - 1);
      if j - first > 1 {
        ValuesKept(a, arguments, values, j - 2);
      }
    }
  }

  lemma RewritingTwice(a: Alphabet, arguments: seq<string>, values: map<string, string>, j: nat)
    requires j < |arguments|
    ensures Rewritten(a, RewrittenAll(a, arguments, values), values, j) == RewrittenAll(a, arguments, values)[j]
  {
    assert IsValue(a, arguments, FirstKey(a, arguments), j) ==> j > 0 && (j - 1 - FirstKey(a, arguments)) % 2 == 0;
    hide IsKey, IsValue;
    FirstKeyKept(a, arguments, values);
    ValuesKept(a, arguments, values, j);
    if IsValue(a, arguments, FirstKey(a, arguments), j) {
      KeysKept(a, arguments, values, j - 1);
    }
  }

  lemma {:induction false} NothingToChange(a: Alphabet, arguments: seq<string>, values: map<string, string>, end: nat)
    requires end <= |arguments| && (forall j :: 0 <= j < |arguments| ==> Rewritten(a, arguments, values, j) == arguments[j])
    ensures ChangesBefore(a, arguments, values, end) == []
    decreases end
  {
    hide Rewritten;
    if end > 0 {
      NothingToChange(a, arguments, values, end - 1);
    }
  }

  /** Rewriting rewritten arguments changes nothing and records nothing, whatever the map. */
  lemma RewritingIsIdempotent(a: Alphabet, arguments: seq<string>, values: map<string, string>)
    ensures var r := RewrittenAll(a, arguments, values);
            RewrittenAll(a, r, values) == r && ChangesBefore(a, r, values, |r|) == []
  {
    hide IsKey, IsValue, Rewritten;
    var r := RewrittenAll(a, arguments, values);
    forall j | 0 <= j < |r|
      ensures Rewritten(a, r, values, j) == r[j]
    {
      RewritingTwice(a, arguments, values, j);
    }
    NothingToChange(a, r, values, |r|);
  }

  /** The recorded changes are exactly the positions where the arguments differ, each with its key, old and new value. */
  lemma {:induction false} ChangesAreDifferences(a: Alphabet, arguments: seq<string>, values: map<string, string>, end: nat, c: Change)
    requires end <= |arguments|
    ensures c in ChangesBefore(a, arguments, values, end) <==>
            exists j :: 0 < j < end && Rewritten(a, arguments, values, j) != arguments[j]
                        && c == Change(arguments[j - 1], arguments[j], Rewritten(a, arguments, values, j))
    decreases end
  {
    hide Rewritten;
    if end > 0 {
      ChangesAreDifferences(a, arguments, values, end - 1, c);
    }
  }

  /* ---------- rewriting the text ---------- */

  function RewrittenText(a: Alphabet, line: string, values: map<string, string>): string {
    Rebuild(a, RewrittenAll(a, Tokens(a, line), values))
  }

  function TextChanges(a: Alphabet, line: string, values: map<string, string>): seq<Change> {
    ChangesBefore(a, Tokens(a, line), values, |Tokens(a, line)|)
  }

  method RewriteText(a: Alphabet, line: string, values: map<string, string>) returns (text: string, changes: seq<Change>)
    ensures text == RewrittenText(a, line, values) && changes == TextChanges(a, line, values)
    ensures var arguments := Tokens(a, line);
            var named := arguments != [] && a.executable(arguments[0]);
            var (rewritten, recorded) := Pairwise(a, if named then arguments[1..] else arguments, values);
            text == Rebuild(a, (if named then [arguments[0]] else []) + rewritten) && changes == recorded
  {
    hide Pairwise, Rebuild, Tokens, RewrittenAll, ChangesBefore;
    RewritesPairwise(a, Tokens(a, line), values);
    var arguments := Tokenize(a, line);
    var rewritten, recorded := RewriteParams(a, arguments, values);
    text := Rebuild(a, rewritten);
    changes := recorded;
  }

  ghost predicate QuoteFreeValues(values: map<string, string>) {
    forall key :: key in values ==> QuoteFree(values[key])
  }

  /** The rewritten text reads back as the rewritten arguments exactly when no replacement used brings in a quote. */
  lemma RewrittenTextReadsBack(a: Alphabet, line: string, values: map<string, string>)
    requires Sound(a)
    ensures Tokens(a, RewrittenText(a, line, values)) == RewrittenAll(a, Tokens(a, line), values)
            <==> AllQuoteFree(RewrittenAll(a, Tokens(a, line), values))
    ensures QuoteFreeValues(values) ==> AllQuoteFree(RewrittenAll(a, Tokens(a, line), values))
  {
    TokensQuoteFree(a, line);
    RoundTripExactly(a, RewrittenAll(a, Tokens(a, line), values));
  }

  /* ---------- when a replacement brings in a quote ---------- */

  /** The first argument with a quote, or the number of arguments. */
  function FirstQuoted(arguments: seq<string>): (j: nat)
    ensures j <= |arguments| && AllQuoteFree(arguments[..j])
    ensures j < |arguments| ==> !QuoteFree(arguments[j])
    ensures j == |arguments| <==> AllQuoteFree(arguments)
  {
    hide QuoteFree;
    if arguments == [] || !QuoteFree(arguments[0]) then 0
    else
      var rest := FirstQuoted(arguments[1..]);
      assert forall i :: 0 <= i < rest ==> arguments[1..][..rest][i] == arguments[i + 1];
      assert AllQuoteFree(arguments) <==> AllQuoteFree(arguments[1..]) by {
        assert forall i :: 0 < i < |arguments| ==> arguments[i] == arguments[1..][i - 1];
      }
      1 + rest
  }

  lemma {:induction false} RebuildSplits(a: Alphabet, arguments: seq<string>, j: nat)
    requires 0 < j < |arguments|
    ensures Rebuild(a, arguments) == Rebuild(a, arguments[..j]) + " " + Rebuild(a, arguments[j..])
    decreases j
  {
    hide Format;
    if j == 1 {
      assert arguments[..1] == [arguments[0]];
    } else {
      RebuildSplits(a, arguments[1..], j - 1);
      assert arguments[1..][..j - 1] == arguments[..j][1..] && arguments[1..][j - 1..] == arguments[j..];
    }
  }

  /** Scanning on keeps the tokens found, and a token once started is found. */
  lemma {:induction false} ScanGrows(a: Alphabet, st: Scan, line: string)
    ensures st.tokens <= Finished(ScanAll(a, st, line))
    ensures st.started ==> |st.tokens| < |Finished(ScanAll(a, st, line))|
    decreases |line|
  {
    if line != "" {
      ScanGrows(a, Step(a, st, line[0]), line[1..]);
    }
  }

  lemma QuotedStarts(a: Alphabet, arguments: seq<string>)
    requires arguments != [] && !QuoteFree(arguments[0])
    ensures Rebuild(a, arguments) != "" && Rebuild(a, arguments)[0] == '"'
  {
    hide Escape;
  }

  /** Up to the first argument with a quote the printed list reads back, and there is a token for that one too. */
  lemma PrefixReadsBack(a: Alphabet, arguments: seq<string>)
    requires Sound(a) && !AllQuoteFree(arguments)
    ensures var j, tokens := FirstQuoted(arguments), Tokens(a, Rebuild(a, arguments));
            j < |tokens| && j < |arguments| && tokens[..j] == arguments[..j]
  {
    var j := FirstQuoted(arguments);
    var rest := Rebuild(a, arguments[j..]);
    QuotedStarts(a, arguments[j..]);
    hide Rebuild, Step, FirstQuoted;
    var st := Scan(arguments[..j], "", false, false);
    if j > 0 {
      RebuildSplits(a, arguments, j);
      var head := Rebuild(a, arguments[..j]);
      ScanAppends(a, START, head + " ", rest);
      ScanAppends(a, START, head, " ");
      RebuildCollected(a, [], arguments[..j]);
      LastRejoined(arguments[..j]);
      Separates(a, [] + arguments[..j][..j - 1], arguments[..j][j - 1]);
    } else {
      assert arguments[0..] == arguments;
    }
    assert ScanAll(a, START, Rebuild(a, arguments)) == ScanAll(a, st, rest);
    StartsToken(a, st, rest);
  }

  lemma StartsToken(a: Alphabet, st: Scan, line: string)
    requires line != "" && line[0] == '"'
    ensures var tokens := Finished(ScanAll(a, st, line)); |st.tokens| < |tokens| && tokens[..|st.tokens|] == st.tokens
  {
    ScanGrows(a, Step(a, st, '"'), line[1..]);
  }

  /** Whether an argument is a value depends on what is before it. */
  lemma {:induction false} ValueByPrefix(a: Alphabet, xs: seq<string>, ys: seq<string>, first: nat, j: nat)
    requires j < |xs| && j < |ys| && xs[..j] == ys[..j]
    ensures IsValue(a, xs, first, j) == IsValue(a, ys, first, j)
    decreases j
  {
    hide IsKey;
    if first < j && (j - first) % 2 == 1 {
      assert xs[j - 1] == xs[..j][j - 1] == ys[j - 1];
      if j - first > 1 {
        assert xs[..j - 2] == xs[..j][..j - 2] == ys[..j - 2];
        ValueByPrefix(a, xs, ys, first, j - 2);
      }
    }
  }

  /** What rewriting changed is a value, its key left as it was. */
  lemma ChangedValue(a: Alphabet, arguments: seq<string>, values: map<string, string>, j: nat)
    requires j < |arguments| && RewrittenAll(a, arguments, values)[j] != arguments[j]
    ensures j > 0 && IsValue(a, arguments, FirstKey(a, arguments), j) && arguments[j - 1] in values
    ensures RewrittenAll(a, arguments, values)[j] == values[arguments[j - 1]]
    ensures RewrittenAll(a, arguments, values)[j - 1] == arguments[j - 1]
  {
    KeysKept(a, arguments, values, j - 1);
  }

  /** Any list that agrees with the rewritten one before such a value gets it there too. */
  lemma SameReplacement(a: Alphabet, arguments: seq<string>, values: map<string, string>, tokens: seq<string>, j: nat)
    requires j < |arguments| && j < |tokens| && RewrittenAll(a, arguments, values)[j] != arguments[j]
    requires tokens[..j] == RewrittenAll(a, arguments, values)[..j]
    ensures j > 0 && Rewritten(a, tokens, values, j) == RewrittenAll(a, arguments, values)[j]
  {
    var r := RewrittenAll(a, arguments, values);
    ChangedValue(a, arguments, values, j);
    hide RewrittenAll, IsValue, FirstKey;
    ValuesKept(a, arguments, values, j);
    FirstKeyKept(a, arguments, values);
    SameFirstKey(a, r, tokens, j);
    ValueByPrefix(a, r, tokens, FirstKey(a, arguments), j);
    assert tokens[j - 1] == tokens[..j][j - 1] == r[..j][j - 1];
  }

  lemma DifferenceRecorded(a: Alphabet, arguments: seq<string>, values: map<string, string>, j: nat)
    requires 0 < j < |arguments| && Rewritten(a, arguments, values, j) != arguments[j]
    ensures ChangesBefore(a, arguments, values, |arguments|) != []
  {
    hide Rewritten, ChangesBefore;
    ChangesAreDifferences(a, arguments, values, |arguments|, Change(arguments[j - 1], arguments[j], Rewritten(a, arguments, values, j)));
  }

  /** An argument that rewriting gave a quote is read back as something else, and so is changed again. */
  lemma QuotedValueChangesAgain(a: Alphabet, arguments: seq<string>, values: map<string, string>)
    requires Sound(a) && AllQuoteFree(arguments) && !AllQuoteFree(RewrittenAll(a, arguments, values))
    ensures var tokens := Tokens(a, Rebuild(a, RewrittenAll(a, arguments, values)));
            ChangesBefore(a, tokens, values, |tokens|) != []
  {
    hide Tokens, Rebuild, FirstQuoted, ChangesBefore, RewrittenAll, Rewritten, QuoteFree;
    var r := RewrittenAll(a, arguments, values);
    var tokens, j := Tokens(a, Rebuild(a, r)), FirstQuoted(r);
    PrefixReadsBack(a, r);
    TokensQuoteFree(a, Rebuild(a, r));
    assert !QuoteFree(r[j]) && QuoteFree(arguments[j]) && QuoteFree(tokens[j]);
    SameReplacement(a, arguments, values, tokens, j);
    DifferenceRecorded(a, tokens, values, j);
  }

  lemma SameFirstKey(a: Alphabet, xs: seq<string>, ys: seq<string>, j: nat)
    requires 0 < j < |xs| && j < |ys| && xs[..j] == ys[..j]
    ensures FirstKey(a, xs) == FirstKey(a, ys)
  {
    assert xs[0] == xs[..j][0] == ys[..j][0];
  }

  /**
   Rewriting the rewritten command line records no change if and only if no replacement used
   brings in a quote; it then yields the same text.
   */
  lemma RewritingTextIsIdempotent(a: Alphabet, line: string, values: map<string, string>)
    requires Sound(a)
    ensures TextChanges(a, RewrittenText(a, line, values), values) == []
            <==> AllQuoteFree(RewrittenAll(a, Tokens(a, line), values))
    ensures AllQuoteFree(RewrittenAll(a, Tokens(a, line), values)) ==>
              RewrittenText(a, RewrittenText(a, line, values), values) == RewrittenText(a, line, values)
    ensures QuoteFreeValues(values) ==> AllQuoteFree(RewrittenAll(a, Tokens(a, line), values))
  {
    TokensQuoteFree(a, line);
    hide Tokens, Rebuild, RewrittenAll, ChangesBefore;
    RewrittenTextReadsBack(a, line, values);
    if AllQuoteFree(RewrittenAll(a, Tokens(a, line), values)) {
      RewritingIsIdempotent(a, Tokens(a, line), values);
    } else {
      QuotedValueChangesAgain(a, Tokens(a, line), values);
    }
  }
}

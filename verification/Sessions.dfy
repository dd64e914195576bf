/**
 Splitting a world log into sessions, counting opcodes, and looking up a session by its window of
 line numbers.
 */
module Sessions {
  import opened Wrappers
  import opened DecimalText

  datatype Event = Event(lineNumber: int, timestamp: string, kind: string, stage: string, opcode: Option<int>, playerName: string)

  /** What a session reports; its duration is a function of the two timestamps. */
  datatype Session = Session(
    startLine: int, endLine: int, startTimestamp: string, endTimestamp: string, playerName: string, eventCount: nat,
    stageSequence: seq<string>, stageCounts: map<string, nat>,
    clientOpcodeCounts: map<int, nat>, serverOpcodeCounts: map<int, nat>, markerCounts: map<string, nat>, events: seq<Event>)

  /* ---------- counting ---------- */

  const WORLD_PREFIX: string := "world-"

  /** What a counter counts an event as: its opcode if it is of the kind, its stage, or its marker. */
  function ByKind(kind: string): Event -> Option<int> {
    (e: Event) => if e.kind == kind then e.opcode else None
  }

  function StageOf(e: Event): Option<string> {
    if e.kind == "world-stage" && e.stage != "" then Some(e.stage) else None
  }

  function MarkerOf(e: Event): Option<string> {
    if WORLD_PREFIX <= e.kind && e.kind != "world-stage" then Some(e.kind) else None
  }

  function CountIn<K(==)>(counts: map<K, nat>, key: K): nat {
    if key in counts then counts[key] else 0
  }

  /** A counter over the events. */
  function Tally<K(==)>(events: seq<Event>, key: Event -> Option<K>): map<K, nat> {
    if events == [] then map[]
    else
      var counts, k := Tally(events[..|events| - 1], key), key(events[|events| - 1]);
      if k.Some? then counts[k.value := CountIn(counts, k.value) + 1] else counts
  }

  method OpcodeCounts(events: seq<Event>, kind: string) returns (counts: map<int, nat>)
    ensures counts == Tally(events, ByKind(kind))
  {
    counts := map[];
    for i := 0 to |events|
      invariant counts == Tally(events[..i], ByKind(kind))
    {
      assert events[..i + 1][..i] == events[..i];
      var event := events[i];
      if event.kind != kind {
        continue;
      }
      if event.opcode.Some? {
        counts := counts[event.opcode.value := CountIn(counts, event.opcode.value) + 1];
      }
    }
    assert events[..|events|] == events;
  }

  /** How many events are counted as `k`. */
  function Occurrences<K(==)>(events: seq<Event>, key: Event -> Option<K>, k: K): nat {
    if events == [] then 0
    else (if key(events[0]) == Some(k) then 1 else 0) + Occurrences(events[1..], key, k)
  }

  lemma {:induction false} OccurrencesAdd<K>(a: seq<Event>, b: seq<Event>, key: Event -> Option<K>, k: K)
    ensures Occurrences(a + b, key, k) == Occurrences(a, key, k) + Occurrences(b, key, k)
    decreases |a|
  {
    if a == [] {
      assert a + b == b;
    } else {
      assert (a + b)[0] == a[0] && (a + b)[1..] == a[1..] + b;
      OccurrencesAdd(a[1..], b, key, k);
    }
  }

  /** A counter has a key for exactly what occurs, with the number of its occurrences. */
  lemma {:induction false} TallyCounts<K>(events: seq<Event>, key: Event -> Option<K>, k: K)
    ensures CountIn(Tally(events, key), k) == Occurrences(events, key, k)
    ensures k in Tally(events, key) <==> Occurrences(events, key, k) > 0
    decreases |events|
  {
    if events != [] {
      var n := |events| - 1;
      TallyCounts(events[..n], key, k);
      OccurrencesAdd(events[..n], [events[n]], key, k);
      assert events[..n] + [events[n]] == events;
      assert [events[n]][1..] == [];
    }
  }

  /** `list(dict.fromkeys(stage_order))`: every stage once, in the order of first occurrence. */
  function StageSequence(events: seq<Event>): seq<string> {
    if events == [] then []
    else
      var stages, stage := StageSequence(events[..|events| - 1]), StageOf(events[|events| - 1]);
      if stage.Some? && stage.value !in stages then stages + [stage.value] else stages
  }

  /** A log read further only adds stages at the end. */
  lemma {:induction false} StagesGrow(events: seq<Event>, n: nat)
    requires n <= |events|
    ensures StageSequence(events[..n]) <= StageSequence(events)
    decreases |events|
  {
    if n < |events| {
      assert events[..|events| - 1][..n] == events[..n];
      StagesGrow(events[..|events| - 1], n);
    } else {
      assert events[..n] == events;
    }
  }

  /** The sequence holds each counted stage exactly once. */
  lemma {:induction false} StagesAreCounted(events: seq<Event>, stage: string)
    ensures stage in StageSequence(events) <==> stage in Tally(events, StageOf)
    ensures forall i, j :: 0 <= i < j < |StageSequence(events)| ==> StageSequence(events)[i] != StageSequence(events)[j]
    decreases |events|
  {
    if events != [] {
      var front := events[..|events| - 1];
      StagesAreCounted(front, stage);
    }
  }

  /* ---------- sessions ---------- */

  /** `next(… for event in events if event["playerName"])`. */
  function FirstName(events: seq<Event>): string {
    if events == [] then "" else if events[0].playerName != "" then events[0].playerName else FirstName(events[1..])
  }

  function BuildSession(events: seq<Event>): Option<Session> {
    if events == [] then None
    else
      var first, last := events[0], events[|events| - 1];
      Some(Session(first.lineNumber, last.lineNumber, first.timestamp, last.timestamp, FirstName(events), |events|,
        StageSequence(events), Tally(events, StageOf), Tally(events, ByKind("recv-raw")), Tally(events, ByKind("send-raw")),
        Tally(events, MarkerOf), events))
  }

  /** The event that opens a session. */
  predicate Opens(e: Event) {
    e.kind == "world-stage" && e.stage == "appearance"
  }

  /** The event groups: a group ends where an opening event follows. */
  function Groups(events: seq<Event>): (groups: seq<seq<Event>>)
    ensures forall i :: 0 <= i < |groups| ==> groups[i] != []
    ensures events != [] ==> groups != []
  {
    if events == [] then []
    else
      var groups, e := Groups(events[..|events| - 1]), events[|events| - 1];
      if groups == [] || Opens(e) then groups + [[e]]
      else groups[..|groups| - 1] + [groups[|groups| - 1] + [e]]
  }

  function SessionsOf(groups: seq<seq<Event>>): (sessions: seq<Session>)
    requires forall i :: 0 <= i < |groups| ==> groups[i] != []
    ensures |sessions| == |groups|
  {
    seq(|groups|, i requires 0 <= i < |groups| => BuildSession(groups[i]).value)
  }

  lemma GroupsAppend(events: seq<Event>, e: Event)
    ensures var groups := Groups(events);
            Groups(events + [e]) == if groups == [] || Opens(e) then groups + [[e]]
                                    else groups[..|groups| - 1] + [groups[|groups| - 1] + [e]]
  {
    hide Opens;
    assert (events + [e])[..|events|] == events;
  }

  method SplitSessions(events: seq<Event>) returns (sessions: seq<Session>)
    ensures sessions == SessionsOf(Groups(events))
    ensures |sessions| == |Groups(events)| && forall k :: 0 <= k < |sessions| ==> BuildSession(Groups(events)[k]) == Some(sessions[k])
  {
    hide BuildSession, Opens, Groups, SessionsOf;
    sessions := [];
    var current: seq<Event> := [];
    ghost var closed: seq<seq<Event>> := [];
    SplitStarts();
    for i := 0 to |events|
      invariant forall k :: 0 <= k < |closed| ==> closed[k] != []
      invariant sessions == SessionsOf(closed)
      invariant current == [] ==> i == 0 && closed == []
      invariant Groups(events[..i]) == if current == [] then [] else closed + [current]
    {
      var event := events[i];
      assert events[..i + 1] == events[..i] + [event];
      GroupsAppend(events[..i], event);
      if Opens(event) && current != [] {
        CloseGroup(closed, current);
        var session := BuildSession(current);
        sessions := sessions + [session.value];
        closed := closed + [current];
        current := [event];
      } else {
        assert current != [] ==> (closed + [current])[..|closed|] == closed;
        assert current == [] ==> current + [event] == [event] && closed + [[event]] == [] + [[event]];
        current := current + [event];
      }
    }
    assert events[..|events|] == events;
    if current != [] {
      CloseGroup(closed, current);
      var session := BuildSession(current);
      sessions := sessions + [session.value];
    }
    SessionsInOrder(Groups(events));
  }

  lemma SessionsInOrder(groups: seq<seq<Event>>)
    requires forall i :: 0 <= i < |groups| ==> groups[i] != []
    ensures forall k :: 0 <= k < |groups| ==> BuildSession(groups[k]) == Some(SessionsOf(groups)[k])
  {
    hide Tally, StageSequence, FirstName;
  }

  lemma SplitStarts()
    ensures SessionsOf([]) == [] && Groups([]) == []
  {
  }

  lemma CloseGroup(closed: seq<seq<Event>>, current: seq<Event>)
    requires current != [] && forall k :: 0 <= k < |closed| ==> closed[k] != []
    ensures BuildSession(current).Some?
    ensures SessionsOf(closed + [current]) == SessionsOf(closed) + [BuildSession(current).value]
  {
  }

  function Concatenated(groups: seq<seq<Event>>): seq<Event> {
    if groups == [] then [] else groups[0] + Concatenated(groups[1..])
  }

  lemma NothingConcatenated()
    ensures Concatenated([]) == []
  {
  }

  lemma {:induction false} ConcatenatedAdds(groups: seq<seq<Event>>, group: seq<Event>)
    ensures Concatenated(groups + [group]) == Concatenated(groups) + group
    decreases |groups|
  {
    if groups == [] {
      assert groups + [group] == [group] && [group][1..] == [];
    } else {
      assert (groups + [group])[0] == groups[0] && (groups + [group])[1..] == groups[1..] + [group];
      ConcatenatedAdds(groups[1..], group);
    }
  }

  lemma LastExtended(front: seq<seq<Event>>, last: seq<Event>, e: Event)
    ensures Concatenated(front + [last + [e]]) == Concatenated(front + [last]) + [e]
  {
    hide Concatenated;
    ConcatenatedAdds(front, last);
    ConcatenatedAdds(front, last + [e]);
    assert Concatenated(front) + (last + [e]) == Concatenated(front) + last + [e];
  }

  lemma LastGroupExtended(groups: seq<seq<Event>>, e: Event)
    requires groups != []
    ensures Concatenated(groups[..|groups| - 1] + [groups[|groups| - 1] + [e]]) == Concatenated(groups) + [e]
  {
    hide Concatenated;
    var front, last := groups[..|groups| - 1], groups[|groups| - 1];
    assert groups == front + [last];
    LastExtended(front, last, e);
  }

  /** Nothing is lost, duplicated or reordered. */
  lemma {:induction false} GroupsPartition(events: seq<Event>)
    ensures Concatenated(Groups(events)) == events
    decreases |events|
  {
    NothingConcatenated();
    hide Concatenated, Opens;
    if events != [] {
      var n := |events| - 1;
      var front, e := events[..n], events[n];
      assert events == front + [e];
      GroupsPartition(front);
      GroupsAppend(front, e);
      if Groups(front) != [] {
        LastGroupExtended(Groups(front), e);
      }
      ConcatenatedAdds(Groups(front), [e]);
    }
  }

  /** Groups as the log format means them: opened by an opening event (the first group may be a fragment) that nowhere recurs inside. */
  predicate WellSplit(groups: seq<seq<Event>>) {
    && (forall i :: 0 <= i < |groups| ==> groups[i] != [])
    && (forall i :: 0 < i < |groups| ==> groups[i] != [] && Opens(groups[i][0]))
    && (forall i, k :: 0 <= i < |groups| && 0 < k < |groups[i]| ==> !Opens(groups[i][k]))
  }

  lemma {:induction false} GroupsWellSplit(events: seq<Event>)
    ensures WellSplit(Groups(events))
    decreases |events|
  {
    hide Opens;
    if events != [] {
      var n := |events| - 1;
      GroupsWellSplit(events[..n]);
    }
  }

  lemma ShorterWellSplit(groups: seq<seq<Event>>, last: seq<Event>, e: Event)
    requires WellSplit(groups + [last + [e]]) && last != []
    ensures WellSplit(groups + [last]) && !Opens(e)
  {
    hide Opens;
    var long, short := groups + [last + [e]], groups + [last];
    assert long[|groups|] == last + [e] && (last + [e])[|last|] == e;
    assert forall i :: 0 <= i < |groups| ==> short[i] == groups[i] == long[i];
    assert forall k :: 0 <= k < |last| ==> last[k] == long[|groups|][k];
  }

  lemma FrontWellSplit(groups: seq<seq<Event>>, last: seq<Event>)
    requires WellSplit(groups + [last])
    ensures WellSplit(groups) && last != [] && (groups != [] ==> Opens(last[0]))
  {
    hide Opens;
    var all := groups + [last];
    assert all[|groups|] == last;
    assert forall i :: 0 <= i < |groups| ==> groups[i] == all[i];
  }

  lemma {:induction false} GroupsUniqueFrom(groups: seq<seq<Event>>, last: seq<Event>)
    requires WellSplit(groups + [last]) && last != []
    ensures Groups(Concatenated(groups) + last) == groups + [last]
    decreases |groups|, |last|
  {
    hide Opens, WellSplit, Groups;
    var n := |last| - 1;
    var front, e := last[..n], last[n];
    assert last == front + [e];
    if front == [] {
      assert last == [e];
      FrontWellSplit(groups, last);
      GroupsAppend(Concatenated(groups), e);
      if groups == [] {
        SplitStarts();
      } else {
        var m := |groups| - 1;
        assert groups == groups[..m] + [groups[m]];
        FrontWellSplit(groups[..m], groups[m]);
        ConcatenatedAdds(groups[..m], groups[m]);
        GroupsUniqueFrom(groups[..m], groups[m]);
      }
    } else {
      ShorterWellSplit(groups, front, e);
      GroupsUniqueFrom(groups, front);
      GroupsAppend(Concatenated(groups) + front, e);
      assert Concatenated(groups) + front + [e] == Concatenated(groups) + last;
      assert (groups + [front])[..|groups|] == groups;
    }
  }

  /** The split is the only such partition. */
  lemma GroupsUnique(groups: seq<seq<Event>>)
    requires WellSplit(groups)
    ensures Groups(Concatenated(groups)) == groups
  {
    if groups != [] {
      var m := |groups| - 1;
      assert groups == groups[..m] + [groups[m]];
      ConcatenatedAdds(groups[..m], groups[m]);
      hide Groups, Concatenated;
      GroupsUniqueFrom(groups[..m], groups[m]);
    }
  }

  /** The occurrences in all groups together. */
  function SummedOccurrences<K(==)>(groups: seq<seq<Event>>, key: Event -> Option<K>, k: K): nat {
    if groups == [] then 0 else Occurrences(groups[0], key, k) + SummedOccurrences(groups[1..], key, k)
  }

  lemma {:induction false} CountsAddUp<K>(groups: seq<seq<Event>>, key: Event -> Option<K>, k: K)
    ensures SummedOccurrences(groups, key, k) == Occurrences(Concatenated(groups), key, k)
    decreases |groups|
  {
    if groups != [] {
      OccurrencesAdd(groups[0], Concatenated(groups[1..]), key, k);
      CountsAddUp(groups[1..], key, k);
    }
  }

  /** One of the sessions' counters, summed at `k`. */
  function SummedCounts<K(==)>(sessions: seq<Session>, counter: Session -> map<K, nat>, k: K): nat {
    if sessions == [] then 0 else CountIn(counter(sessions[0]), k) + SummedCounts(sessions[1..], counter, k)
  }

  function ClientCounts(session: Session): map<int, nat> { session.clientOpcodeCounts }
  function ServerCounts(session: Session): map<int, nat> { session.serverOpcodeCounts }
  function StageCounts(session: Session): map<string, nat> { session.stageCounts }
  function MarkerCounts(session: Session): map<string, nat> { session.markerCounts }

  /** The counter of every session is a count of its events by `key`. */
  ghost predicate CountsBy<K(!new)>(counter: Session -> map<K, nat>, key: Event -> Option<K>) {
    forall events: seq<Event> :: events != [] ==> counter(BuildSession(events).value) == Tally(events, key)
  }

  lemma {:induction false} SessionCountsSum<K(!new)>(groups: seq<seq<Event>>, counter: Session -> map<K, nat>, key: Event -> Option<K>, k: K)
    requires (forall i :: 0 <= i < |groups| ==> groups[i] != []) && CountsBy(counter, key)
    ensures SummedCounts(SessionsOf(groups), counter, k) == SummedOccurrences(groups, key, k)
    decreases |groups|
  {
    hide Tally, Occurrences, BuildSession;
    if groups != [] {
      assert SessionsOf(groups)[1..] == SessionsOf(groups[1..]);
      SessionCountsSum(groups[1..], counter, key, k);
      TallyCounts(groups[0], key, k);
    }
  }

  lemma CountsOfLog<K(!new)>(events: seq<Event>, counter: Session -> map<K, nat>, key: Event -> Option<K>, k: K)
    requires CountsBy(counter, key)
    ensures SummedCounts(SessionsOf(Groups(events)), counter, k) == CountIn(Tally(events, key), k)
  {
    hide CountsBy, Tally, Groups;
    GroupsPartition(events);
    SessionCountsSum(Groups(events), counter, key, k);
    CountsAddUp(Groups(events), key, k);
    TallyCounts(events, key, k);
  }

  /**
   For every log, opcode, stage and marker: the sessions' client, server, stage and marker counts
   sum to the counts of the whole log.
   */
  lemma SessionCountsAddUp(events: seq<Event>, opcode: int, name: string)
    ensures SummedCounts(SessionsOf(Groups(events)), ClientCounts, opcode) == CountIn(Tally(events, ByKind("recv-raw")), opcode)
    ensures SummedCounts(SessionsOf(Groups(events)), ServerCounts, opcode) == CountIn(Tally(events, ByKind("send-raw")), opcode)
    ensures SummedCounts(SessionsOf(Groups(events)), StageCounts, name) == CountIn(Tally(events, StageOf), name)
    ensures SummedCounts(SessionsOf(Groups(events)), MarkerCounts, name) == CountIn(Tally(events, MarkerOf), name)
  {
    hide Tally, Groups, CountIn, SummedCounts, SessionsOf, StageSequence, FirstName, StageOf, MarkerOf, ByKind;
    CountsOfLog(events, ClientCounts, ByKind("recv-raw"), opcode);
    CountsOfLog(events, ServerCounts, ByKind("send-raw"), opcode);
    CountsOfLog(events, StageCounts, StageOf, name);
    CountsOfLog(events, MarkerCounts, MarkerOf, name);
  }

  /* ---------- windows ---------- */

  function ColonIndex(s: string): (i: nat)
    ensures i <= |s| && (forall k :: 0 <= k < i ==> s[k] != ':') && (i < |s| ==> s[i] == ':')
  {
    if s == "" || s[0] == ':' then 0 else 1 + ColonIndex(s[1..])
  }

  /** No window at all, the bounds of one, or an error. */
  function ParseWindow(window: Option<string>): Result<Option<(int, int)>> {
    if window.None? || window.value == "" then Ok(None)
    else
      var text := window.value;
      var colon := ColonIndex(text);
      if colon == |text| then Err(InvalidWindow)
      else
        var start, end := ParseInt(text[..colon]), ParseInt(text[colon + 1..]);
        if start.None? || end.None? then Err(InvalidWindow)
        else if start.value <= 0 || end.value < start.value then Err(InvalidWindow)
        else Ok(Some((start.value, end.value)))
  }

  function Selected(events: seq<Event>, start: int, end: int): seq<Event> {
    if events == [] then []
    else (if start <= events[0].lineNumber <= end then [events[0]] else []) + Selected(events[1..], start, end)
  }

  function LatestSession(events: seq<Event>): Option<Session> {
    var sessions := SessionsOf(Groups(events));
    if sessions != [] then Some(sessions[|sessions| - 1])
    else if forall i :: 0 <= i < |events| ==> events[i].kind != "world-stage" then None
    else BuildSession(events)
  }

  function ExtractWindow(events: seq<Event>, window: Option<string>): Result<Option<Session>> {
    var bounds := ParseWindow(window);
    if bounds.Err? then Err(bounds.error)
    else if bounds.value.None? then Ok(LatestSession(events))
    else Ok(BuildSession(Selected(events, bounds.value.value.0, bounds.value.value.1)))
  }

  function WindowText(start: int, end: int): string {
    Show(start) + ":" + Show(end)
  }

  /** The text of a window is accepted exactly when its bounds are, and then gives them back. */
  lemma WindowRoundTrip(start: int, end: int)
    ensures ParseWindow(Some(WindowText(start, end)))
            == if 0 < start <= end then Ok(Some((start, end))) else Err(InvalidWindow)
  {
    ParseShown(start);
    ParseShown(end);
    hide Show, ParseInt;
    var text, a := WindowText(start, end), Show(start);
    assert text[|a|] == ':';
    var colon := ColonIndex(text);
    assert forall k :: 0 <= k < |a| ==> text[k] == a[k] && a[k] in a;
    assert colon == |a|;
    assert text[..colon] == a && text[colon + 1..] == Show(end);
  }

  /** A window without a colon is an error. */
  lemma NoColon(events: seq<Event>, text: string)
    requires text != "" && ':' !in text
    ensures ExtractWindow(events, Some(text)) == Err(InvalidWindow)
  {
    assert forall i :: 0 <= i < |text| ==> text[i] in text && text[i] != ':';
    assert ColonIndex(text) == |text|;
  }

  predicate LinesIncrease(events: seq<Event>) {
    forall i, j :: 0 <= i < j < |events| ==> events[i].lineNumber < events[j].lineNumber
  }

  lemma {:induction false} SelectedAdds(a: seq<Event>, b: seq<Event>, start: int, end: int)
    ensures Selected(a + b, start, end) == Selected(a, start, end) + Selected(b, start, end)
    decreases |a|
  {
    if a == [] {
      assert a + b == b;
    } else {
      assert (a + b)[0] == a[0] && (a + b)[1..] == a[1..] + b;
      SelectedAdds(a[1..], b, start, end);
    }
  }

  lemma {:induction false} SelectsAll(events: seq<Event>, start: int, end: int)
    requires forall i :: 0 <= i < |events| ==> start <= events[i].lineNumber <= end
    ensures Selected(events, start, end) == events
    decreases |events|
  {
    if events != [] {
      SelectsAll(events[1..], start, end);
      assert events == [events[0]] + events[1..];
    }
  }

  lemma {:induction false} SelectsNone(events: seq<Event>, start: int, end: int)
    requires forall i :: 0 <= i < |events| ==> !(start <= events[i].lineNumber <= end)
    ensures Selected(events, start, end) == []
    decreases |events|
  {
    if events != [] {
      SelectsNone(events[1..], start, end);
    }
  }

  lemma {:induction false} ConcatenatedAround(groups: seq<seq<Event>>, k: nat)
    requires k < |groups|
    ensures Concatenated(groups) == Concatenated(groups[..k]) + groups[k] + Concatenated(groups[k + 1..])
    decreases k
  {
    if k == 0 {
      assert groups[..0] == [] && Concatenated(groups[..0]) == [];
      assert [] + groups[0] == groups[0];
    } else {
      ConcatenatedAround(groups[1..], k - 1);
      assert groups[1..][..k - 1] == groups[..k][1..] && groups[1..][k..] == groups[k + 1..] && groups[..k][0] == groups[0];
      var a, b, c := groups[0], Concatenated(groups[..k][1..]), Concatenated(groups[k + 1..]);
      assert a + (b + groups[k] + c) == a + b + groups[k] + c;
    }
  }

  lemma RunBounds(a: seq<Event>, run: seq<Event>, b: seq<Event>)
    requires LinesIncrease(a + run + b) && run != []
    ensures forall i :: 0 <= i < |a| ==> a[i].lineNumber < run[0].lineNumber
    ensures forall i :: 0 <= i < |b| ==> run[|run| - 1].lineNumber < b[i].lineNumber
    ensures forall i :: 0 <= i < |run| ==> run[0].lineNumber <= run[i].lineNumber <= run[|run| - 1].lineNumber
  {
    var all := a + run + b;
    assert all[|a|] == run[0] && all[|a| + |run| - 1] == run[|run| - 1];
    assert forall i :: 0 <= i < |a| ==> all[i] == a[i];
    assert forall i :: 0 <= i < |run| ==> all[|a| + i] == run[i];
    assert forall i :: 0 <= i < |b| ==> all[|a| + |run| + i] == b[i];
  }

  /** With increasing line numbers, the lines from a run's first to its last are exactly the run. */
  lemma SelectsRun(a: seq<Event>, run: seq<Event>, b: seq<Event>)
    requires LinesIncrease(a + run + b) && run != []
    ensures Selected(a + run + b, run[0].lineNumber, run[|run| - 1].lineNumber) == run
    ensures run[0].lineNumber <= run[|run| - 1].lineNumber
  {
    RunBounds(a, run, b);
    hide LinesIncrease, Selected;
    var start, end := run[0].lineNumber, run[|run| - 1].lineNumber;
    SelectsNone(a, start, end);
    SelectsNone(b, start, end);
    SelectsAll(run, start, end);
    SelectedAdds(a + run, b, start, end);
    SelectedAdds(a, run, start, end);
  }

  /** Looking up a session's own `start:end` window returns exactly that session. */
  lemma WindowFindsSession(events: seq<Event>, k: nat)
    requires LinesIncrease(events) && (forall i :: 0 <= i < |events| ==> events[i].lineNumber > 0)
    requires k < |Groups(events)|
    ensures var session := SessionsOf(Groups(events))[k];
            ExtractWindow(events, Some(WindowText(session.startLine, session.endLine))) == Ok(Some(session))
  {
    hide Groups, Selected, ParseWindow, WindowText, Tally, FirstName;
    var groups, run := Groups(events), Groups(events)[k];
    GroupsPartition(events);
    ConcatenatedAround(groups, k);
    var a, b := Concatenated(groups[..k]), Concatenated(groups[k + 1..]);
    SelectsRun(a, run, b);
    assert events[|a|] == run[0];
    WindowRoundTrip(run[0].lineNumber, run[|run| - 1].lineNumber);
    assert BuildSession(run).Some?;
  }

  /** Without a window the last session is returned, and the fallback behind it is never taken. */
  lemma LatestIsLast(events: seq<Event>)
    ensures LatestSession(events) == if events == [] then None else Some(SessionsOf(Groups(events))[|Groups(events)| - 1])
  {
  }

  /** The last group runs from the last opening event, or from the start of a log without one. */
  lemma {:induction false} LastGroup(events: seq<Event>) returns (k: nat)
    requires events != []
    ensures k < |events| && (k == 0 || Opens(events[k])) && (forall j :: k < j < |events| ==> !Opens(events[j]))
    ensures Groups(events) != [] && Groups(events)[|Groups(events)| - 1] == events[k..]
    decreases |events|
  {
    hide Opens;
    var front, e := events[..|events| - 1], events[|events| - 1];
    if front == [] || Opens(e) {
      k := |front|;
    } else {
      k := LastGroup(front);
      assert front[k..] + [e] == events[k..];
    }
  }

  /** What is extracted without a window: the session of the events from the last opening one on. */
  lemma LatestExtracted(events: seq<Event>, window: Option<string>) returns (k: nat)
    requires window == None || window == Some("")
    ensures events == [] ==> ExtractWindow(events, window) == Ok(None)
    ensures events != [] ==>
              && k < |events| && (k == 0 || (events[k].kind == "world-stage" && events[k].stage == "appearance"))
              && (forall j :: k < j < |events| ==> events[j].kind != "world-stage" || events[j].stage != "appearance")
              && ExtractWindow(events, window) == Ok(BuildSession(events[k..]))
  {
    hide Groups, BuildSession;
    LatestIsLast(events);
    k := 0;
    if events != [] {
      k := LastGroup(events);
      SessionsInOrder(Groups(events));
      assert forall j :: k < j < |events| ==> !Opens(events[j]);
    }
  }

  lemma {:induction false} FirstNameIs(events: seq<Event>)
    ensures FirstName(events) == "" ==> forall i :: 0 <= i < |events| ==> events[i].playerName == ""
    ensures FirstName(events) != "" ==>
              exists i :: 0 <= i < |events| && events[i].playerName == FirstName(events) && forall j :: 0 <= j < i ==> events[j].playerName == ""
    decreases |events|
  {
    if events != [] {
      var rest := events[1..];
      FirstNameIs(rest);
      assert forall i :: 0 < i < |events| ==> events[i] == rest[i - 1];
      if events[0].playerName == "" && FirstName(rest) != "" {
        var i :| 0 <= i < |rest| && rest[i].playerName == FirstName(rest) && forall j :: 0 <= j < i ==> rest[j].playerName == "";
        assert events[i + 1].playerName == FirstName(events);
      }
    }
  }

  /** Whatever group it is made of: where a session starts and ends, whose it is, and what it holds. */
  lemma SessionReports(events: seq<Event>)
    requires events != []
    ensures BuildSession(events).Some?
    ensures var session, last := BuildSession(events).value, events[|events| - 1];
            && session.startLine == events[0].lineNumber && session.endLine == last.lineNumber
            && session.startTimestamp == events[0].timestamp && session.endTimestamp == last.timestamp
            && session.eventCount == |session.events| && session.events == events
            && (session.playerName == "" <==> forall i :: 0 <= i < |events| ==> events[i].playerName == "")
            && (session.playerName != "" ==>
                  exists i :: 0 <= i < |events| && events[i].playerName == session.playerName && forall j :: 0 <= j < i ==> events[j].playerName == "")
  {
    hide Tally, StageSequence;
    FirstNameIs(events);
  }

  /** Its stages, in the order in which they first occur. */
  lemma {:induction false} StagesInOrder(events: seq<Event>, i: nat)
    requires i < |StageSequence(events)|
    ensures exists k :: 0 <= k < |events| && events[k].kind == "world-stage" && events[k].stage == StageSequence(events)[i] != ""
                        && StageSequence(events[..k]) == StageSequence(events)[..i]
    decreases |events|
  {
    var n := |events| - 1;
    var front := StageSequence(events[..n]);
    if i < |front| {
      StagesInOrder(events[..n], i);
      var k :| 0 <= k < n && events[..n][k].kind == "world-stage" && events[..n][k].stage == front[i] != ""
               && StageSequence(events[..n][..k]) == front[..i];
      assert events[..n][..k] == events[..k];
    }
  }

  lemma {:induction false} OccurrencesCounted<K>(events: seq<Event>, key: Event -> Option<K>, k: K)
    ensures Occurrences(events, key, k) == |set i | 0 <= i < |events| && key(events[i]) == Some(k)|
    decreases |events|
  {
    if events != [] {
      var n := |events| - 1;
      OccurrencesCounted(events[..n], key, k);
      OccurrencesAdd(events[..n], [events[n]], key, k);
      assert events[..n] + [events[n]] == events && [events[n]][1..] == [];
      var before, all := set i | 0 <= i < n && key(events[..n][i]) == Some(k), set i | 0 <= i < |events| && key(events[i]) == Some(k);
      assert all == if key(events[n]) == Some(k) then before + {n} else before;
    }
  }

  lemma KindCounted(events: seq<Event>, kind: string, opcode: int)
    ensures CountIn(Tally(events, ByKind(kind)), opcode)
            == |set i | 0 <= i < |events| && events[i].kind == kind && events[i].opcode == Some(opcode)|
  {
    var key := ByKind(kind);
    TallyCounts(events, key, opcode);
    OccurrencesCounted(events, key, opcode);
    hide Tally, Occurrences;
    var counted := set i | 0 <= i < |events| && key(events[i]) == Some(opcode);
    assert counted == set i | 0 <= i < |events| && events[i].kind == kind && events[i].opcode == Some(opcode);
  }

  lemma StageCounted(events: seq<Event>, stage: string)
    requires stage != ""
    ensures CountIn(Tally(events, StageOf), stage) == |set i | 0 <= i < |events| && events[i].kind == "world-stage" && events[i].stage == stage|
  {
    var key: Event -> Option<string> := StageOf;
    TallyCounts(events, key, stage);
    OccurrencesCounted(events, key, stage);
    hide Tally, Occurrences;
    assert forall i :: 0 <= i < |events| ==> key(events[i]) == StageOf(events[i]);
    var counted := set i | 0 <= i < |events| && key(events[i]) == Some(stage);
    assert counted == set i | 0 <= i < |events| && events[i].kind == "world-stage" && events[i].stage == stage;
  }

  lemma MarkerCounted(events: seq<Event>, marker: string)
    requires "world-" <= marker && marker != "world-stage"
    ensures CountIn(Tally(events, MarkerOf), marker) == |set i | 0 <= i < |events| && events[i].kind == marker|
  {
    var key: Event -> Option<string> := MarkerOf;
    TallyCounts(events, key, marker);
    OccurrencesCounted(events, key, marker);
    hide Tally, Occurrences;
    assert forall i :: 0 <= i < |events| ==> key(events[i]) == MarkerOf(events[i]);
    var counted := set i | 0 <= i < |events| && key(events[i]) == Some(marker);
    assert counted == set i | 0 <= i < |events| && events[i].kind == marker;
  }

  /** What the four counters of a session count, event by event. */
  lemma SessionTallies(events: seq<Event>, opcode: int, name: string)
    requires events != []
    ensures var session := BuildSession(events).value;
            && CountIn(session.clientOpcodeCounts, opcode)
               == |set i | 0 <= i < |events| && events[i].kind == "recv-raw" && events[i].opcode == Some(opcode)|
            && CountIn(session.serverOpcodeCounts, opcode)
               == |set i | 0 <= i < |events| && events[i].kind == "send-raw" && events[i].opcode == Some(opcode)|
            && (name != "" ==>
                  CountIn(session.stageCounts, name) == |set i | 0 <= i < |events| && events[i].kind == "world-stage" && events[i].stage == name|)
            && (name != "world-stage" && "world-" <= name ==>
                  CountIn(session.markerCounts, name) == |set i | 0 <= i < |events| && events[i].kind == name|)
  {
    hide Tally, CountIn, StageSequence, FirstName, ByKind, StageOf, MarkerOf;
    KindCounted(events, "recv-raw", opcode);
    KindCounted(events, "send-raw", opcode);
    if name != "" {
      StageCounted(events, name);
    }
    if name != "world-stage" && "world-" <= name {
      MarkerCounted(events, name);
    }
  }
}

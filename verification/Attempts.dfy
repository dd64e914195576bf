/**
 Pairing world sessions with proxy sessions and with the login attempts of the server log. Times
 are in microseconds; what makes a log line a login, a progress mark or a close is left to the
 line's own fields.
 */
module Attempts {
  import opened Wrappers

  /* ---------- the server log ---------- */

  /** A stripped log line and what the patterns find in it. */
  datatype Line = Line(text: string, login: Option<string>, bootstrap: bool, waiting: bool, skipReady: bool, close: Option<string>)

  datatype ServerAttempt = ServerAttempt(
    player: string, bootstrapFinished: bool, waitingMapBuildComplete: bool, skipReadyWait: bool,
    channelClosed: bool, closeStage: string, closeLine: string)

  function Fresh(player: string): ServerAttempt {
    ServerAttempt(player, false, false, false, false, "", "")
  }

  /** The marks of one line that is neither blank nor a login. */
  function Marked(a: ServerAttempt, line: Line): ServerAttempt {
    a.(bootstrapFinished := a.bootstrapFinished || line.bootstrap,
    waitingMapBuildComplete := a.waitingMapBuildComplete || line.waiting,
    skipReadyWait := a.skipReadyWait || line.skipReady)
  }

  function Closed(a: ServerAttempt, line: Line): ServerAttempt
    requires line.close.Some?
  {
    a.(channelClosed := true, closeStage := line.close.value, closeLine := line.text)
  }

  predicate IsLogin(line: Line) {
    line.text != "" && line.login.Some?
  }

  predicate IsClose(line: Line) {
    line.text != "" && line.login.None? && line.close.Some?
  }

  /** An attempt as the lines after it leave it: up to the next login, or through its first close. */
  function Completed(a: ServerAttempt, lines: seq<Line>): ServerAttempt
    decreases |lines|
  {
    if lines == [] || IsLogin(lines[0]) then a
    else if lines[0].text == "" then Completed(a, lines[1..])
    else if lines[0].close.Some? then Closed(Marked(a, lines[0]), lines[0])
    else Completed(Marked(a, lines[0]), lines[1..])
  }

  /** One attempt for every login line, each completed by what follows it. */
  function AttemptsOf(lines: seq<Line>): seq<ServerAttempt> {
    if lines == [] then []
    else if IsLogin(lines[0]) then [Completed(Fresh(lines[0].login.value), lines[1..])] + AttemptsOf(lines[1..])
    else AttemptsOf(lines[1..])
  }

  /** What the rest of the log still yields while `current` is open. */
  function Remaining(current: Option<ServerAttempt>, lines: seq<Line>): seq<ServerAttempt> {
    (if current.Some? then [Completed(current.value, lines)] else []) + AttemptsOf(lines)
  }

  /** One line: what it emits and what is open after it. */
  lemma LineRead(current: Option<ServerAttempt>, lines: seq<Line>)
    requires lines != []
    ensures var line, rest := lines[0], lines[1..];
            Remaining(current, lines)
            == if IsLogin(line) then (if current.Some? then [current.value] else []) + Remaining(Some(Fresh(line.login.value)), rest)
               else if line.text == "" || current.None? then Remaining(current, rest)
               else if line.close.Some? then [Closed(Marked(current.value, line), line)] + Remaining(None, rest)
               else Remaining(Some(Marked(current.value, line)), rest)
  {
    hide Marked, Closed;
  }

  method ParseServerAttempts(lines: seq<Line>) returns (attempts: seq<ServerAttempt>)
    ensures attempts == AttemptsOf(lines)
  {
    hide Remaining, AttemptsOf;
    attempts := [];
    var current: Option<ServerAttempt> := None;
    LogStarts(lines);
    for i := 0 to |lines|
      invariant attempts + Remaining(current, lines[i..]) == AttemptsOf(lines)
    {
      var line := lines[i];
      assert lines[i..][0] == line && lines[i..][1..] == lines[i + 1..];
      LineRead(current, lines[i..]);
      if line.text == "" {
        continue;
      }
      if line.login.Some? {
        Emits(attempts, if current.Some? then [current.value] else [], Remaining(Some(Fresh(line.login.value)), lines[i + 1..]));
        if current.Some? {
          attempts := attempts + [current.value];
        }
        current := Some(Fresh(line.login.value));
        continue;
      }
      if current.None? {
        continue;
      }
      var a := current.value;
      if line.bootstrap {
        a := a.(bootstrapFinished := true);
      }
      if line.waiting {
        a := a.(waitingMapBuildComplete := true);
      }
      if line.skipReady {
        a := a.(skipReadyWait := true);
      }
      assert a == Marked(current.value, line);
      current := Some(a);
      if line.close.Some? {
        a := a.(channelClosed := true, closeStage := line.close.value, closeLine := line.text);
        Emits(attempts, [a], Remaining(None, lines[i + 1..]));
        attempts := attempts + [a];
        current := None;
      }
    }
    LogEnds(current, lines);
    if current.Some? {
      attempts := attempts + [current.value];
    }
  }

  lemma Emits(attempts: seq<ServerAttempt>, emitted: seq<ServerAttempt>, rest: seq<ServerAttempt>)
    ensures attempts + (emitted + rest) == attempts + emitted + rest
    ensures attempts + [] == attempts
  {
  }

  lemma LogStarts(lines: seq<Line>)
    ensures [] + Remaining(None, lines[0..]) == AttemptsOf(lines)
  {
    assert lines[0..] == lines;
  }

  lemma LogEnds(current: Option<ServerAttempt>, lines: seq<Line>)
    ensures Remaining(current, lines[|lines|..]) == if current.Some? then [current.value] else []
  {
  }

  /** The players of the login lines, in order. */
  function LoginPlayers(lines: seq<Line>): seq<string> {
    if lines == [] then []
    else (if IsLogin(lines[0]) then [lines[0].login.value] else []) + LoginPlayers(lines[1..])
  }

  lemma {:induction false} CompletedKeepsPlayer(a: ServerAttempt, lines: seq<Line>)
    ensures Completed(a, lines).player == a.player
    decreases |lines|
  {
    if lines != [] && !IsLogin(lines[0]) && (lines[0].text == "" || lines[0].close.None?) {
      CompletedKeepsPlayer(if lines[0].text == "" then a else Marked(a, lines[0]), lines[1..]);
    }
  }

  /** The log yields exactly one attempt per login line, in order. */
  lemma {:induction false} OneAttemptPerLogin(lines: seq<Line>)
    ensures |AttemptsOf(lines)| == |LoginPlayers(lines)|
    ensures forall k :: 0 <= k < |LoginPlayers(lines)| ==> AttemptsOf(lines)[k].player == LoginPlayers(lines)[k]
    decreases |lines|
  {
    if lines != [] {
      OneAttemptPerLogin(lines[1..]);
      if IsLogin(lines[0]) {
        CompletedKeepsPlayer(Fresh(lines[0].login.value), lines[1..]);
      }
    }
  }

  /** How many of the following lines belong to an attempt: up to the next login, or through the first close. */
  function Extent(lines: seq<Line>): (n: nat)
    ensures n <= |lines|
  {
    if lines == [] || IsLogin(lines[0]) then 0
    else if IsClose(lines[0]) then 1
    else 1 + Extent(lines[1..])
  }

  predicate SaysBootstrap(line: Line) { line.bootstrap }
  predicate SaysWaiting(line: Line) { line.waiting }
  predicate SaysSkipReady(line: Line) { line.skipReady }
  predicate HasBootstrap(a: ServerAttempt) { a.bootstrapFinished }
  predicate HasWaiting(a: ServerAttempt) { a.waitingMapBuildComplete }
  predicate HasSkipReady(a: ServerAttempt) { a.skipReadyWait }

  /** Some non-blank line among the first `n` carries the mark. */
  predicate AnyMark(lines: seq<Line>, n: nat, mark: Line -> bool)
    requires n <= |lines|
  {
    exists i :: 0 <= i < n && lines[i].text != "" && mark(lines[i])
  }

  lemma ExtentTail(lines: seq<Line>, mark: Line -> bool)
    requires lines != [] && !IsLogin(lines[0]) && !IsClose(lines[0])
    ensures Extent(lines) == 1 + Extent(lines[1..])
    ensures AnyMark(lines, Extent(lines), mark)
            <==> (lines[0].text != "" && mark(lines[0])) || AnyMark(lines[1..], Extent(lines[1..]), mark)
  {
    var n := Extent(lines[1..]);
    hide Extent;
    if AnyMark(lines, n + 1, mark) {
      var i :| 0 <= i < n + 1 && lines[i].text != "" && mark(lines[i]);
      assert i > 0 ==> lines[1..][i - 1] == lines[i];
    }
    if AnyMark(lines[1..], n, mark) {
      var i :| 0 <= i < n && lines[1..][i].text != "" && mark(lines[1..][i]);
      assert lines[i + 1].text != "" && mark(lines[i + 1]);
    }
    if lines[0].text != "" && mark(lines[0]) {
      assert AnyMark(lines, n + 1, mark);
    }
  }

  /** A mark that lines set on an attempt, and never take back. */
  predicate Tracks(flag: ServerAttempt -> bool, mark: Line -> bool, a: ServerAttempt, line: Line) {
    && flag(Marked(a, line)) == (flag(a) || mark(line))
    && (line.close.Some? ==> flag(Closed(Marked(a, line), line)) == (flag(a) || mark(line)))
  }

  /** Such a flag is set at the end exactly if it was at the start or some line of the attempt's extent sets it. */
  lemma {:induction false} FlagReported(a: ServerAttempt, lines: seq<Line>, flag: ServerAttempt -> bool, mark: Line -> bool)
    requires forall b, line :: Tracks(flag, mark, b, line)
    ensures flag(Completed(a, lines)) == (flag(a) || AnyMark(lines, Extent(lines), mark))
    decreases |lines|
  {
    if lines == [] || IsLogin(lines[0]) {
    } else if IsClose(lines[0]) {
      assert Tracks(flag, mark, a, lines[0]);
      assert AnyMark(lines, 1, mark) <==> mark(lines[0]);
    } else {
      hide AnyMark;
      ExtentTail(lines, mark);
      assert Tracks(flag, mark, a, lines[0]);
      FlagReported(if lines[0].text == "" then a else Marked(a, lines[0]), lines[1..], flag, mark);
    }
  }

  lemma {:induction false} CloseReported(a: ServerAttempt, lines: seq<Line>)
    requires !a.channelClosed
    ensures var n := Extent(lines);
            && Completed(a, lines).channelClosed == (n > 0 && IsClose(lines[n - 1]))
            && (if n > 0 && IsClose(lines[n - 1]) then
                  Completed(a, lines).closeStage == lines[n - 1].close.value && Completed(a, lines).closeLine == lines[n - 1].text
                else Completed(a, lines).closeStage == a.closeStage && Completed(a, lines).closeLine == a.closeLine)
    decreases |lines|
  {
    if lines != [] && !IsLogin(lines[0]) && !IsClose(lines[0]) {
      CloseReported(if lines[0].text == "" then a else Marked(a, lines[0]), lines[1..]);
      var n := Extent(lines[1..]);
      assert n > 0 ==> lines[1..][n - 1] == lines[n];
    }
  }

  /**
   What an attempt reports: closed exactly when its extent ends in a close line, with that line's
   stage and text; bootstrap finished, waiting for the map build, and ready wait skipped exactly
   when some line of its extent says so.
   */
  lemma CompletedReports(a: ServerAttempt, lines: seq<Line>)
    requires !a.channelClosed
    ensures var n := Extent(lines);
            && Completed(a, lines).channelClosed == (n > 0 && IsClose(lines[n - 1]))
            && (if n > 0 && IsClose(lines[n - 1]) then
                  Completed(a, lines).closeStage == lines[n - 1].close.value && Completed(a, lines).closeLine == lines[n - 1].text
                else Completed(a, lines).closeStage == a.closeStage && Completed(a, lines).closeLine == a.closeLine)
            && Completed(a, lines).bootstrapFinished == (a.bootstrapFinished || AnyMark(lines, n, SaysBootstrap))
            && Completed(a, lines).waitingMapBuildComplete == (a.waitingMapBuildComplete || AnyMark(lines, n, SaysWaiting))
            && Completed(a, lines).skipReadyWait == (a.skipReadyWait || AnyMark(lines, n, SaysSkipReady))
  {
    hide Completed, Extent;
    CloseReported(a, lines);
    FlagReported(a, lines, HasBootstrap, SaysBootstrap);
    FlagReported(a, lines, HasWaiting, SaysWaiting);
    FlagReported(a, lines, HasSkipReady, SaysSkipReady);
  }

  /* ---------- the nearest proxy session ---------- */

  datatype Proxy = Proxy(
    route: string, start: Option<int>, toRemoteBytes: int,
    referenceTableRequests: int, archiveRequests: int, firstRequestLabel: string, truncatedResponse: bool)

  function Distance(a: int, b: int): nat {
    if a < b then b - a else a - b
  }

  /** Which sessions may be paired: of the right kind, not used yet, with a start close enough to the target. */
  datatype Criteria = Criteria(accepts: Proxy -> bool, maxDelta: int)

  predicate Eligible(c: Criteria, sessions: seq<Proxy>, target: int, used: set<nat>, i: nat) {
    && i < |sessions| && i !in used && c.accepts(sessions[i])
    && sessions[i].start.Some? && Distance(sessions[i].start.value, target) <= c.maxDelta
  }

  function DistanceAt(sessions: seq<Proxy>, target: int, i: nat): nat
    requires i < |sessions| && sessions[i].start.Some?
  {
    Distance(sessions[i].start.value, target)
  }

  /** The nearest eligible session, the earliest on ties. */
  ghost predicate IsNearest(c: Criteria, sessions: seq<Proxy>, target: int, used: set<nat>, i: nat) {
    && Eligible(c, sessions, target, used, i)
    && forall j: nat :: Eligible(c, sessions, target, used, j) ==>
         DistanceAt(sessions, target, i) < DistanceAt(sessions, target, j)
         || (DistanceAt(sessions, target, i) == DistanceAt(sessions, target, j) && i <= j)
  }

  /** The choice among the first `n` sessions. */
  function NearestBefore(c: Criteria, sessions: seq<Proxy>, target: int, used: set<nat>, n: nat): (r: Option<nat>)
    requires n <= |sessions|
    ensures r.Some? ==> r.value < n && Eligible(c, sessions, target, used, r.value)
    ensures r.Some? ==> forall j: nat :: j < n && Eligible(c, sessions, target, used, j) ==>
                          DistanceAt(sessions, target, r.value) < DistanceAt(sessions, target, j)
                          || (DistanceAt(sessions, target, r.value) == DistanceAt(sessions, target, j) && r.value <= j)
    ensures r.None? ==> forall j: nat :: j < n ==> !Eligible(c, sessions, target, used, j)
  {
    if n == 0 then None
    else
      var best, i := NearestBefore(c, sessions, target, used, n - 1), n - 1;
      if !Eligible(c, sessions, target, used, i) then best
      else if best.None? || DistanceAt(sessions, target, i) < DistanceAt(sessions, target, best.value) then Some(i)
      else best
  }

  function Nearest(c: Criteria, sessions: seq<Proxy>, target: Option<int>, used: set<nat>): Option<nat> {
    if target.None? then None else NearestBefore(c, sessions, target.value, used, |sessions|)
  }

  /** With a target, a session is returned if and only if one is eligible, and it is the nearest. */
  lemma NearestIsNearest(c: Criteria, sessions: seq<Proxy>, target: int, used: set<nat>)
    ensures var r := Nearest(c, sessions, Some(target), used);
            && (r.Some? ==> IsNearest(c, sessions, target, used, r.value))
            && (r.None? ==> forall j: nat :: !Eligible(c, sessions, target, used, j))
  {
  }

  lemma NothingWithoutTarget(c: Criteria, sessions: seq<Proxy>, used: set<nat>)
    ensures Nearest(c, sessions, None, used) == None
  {
  }

  lemma NearestIsEligible(c: Criteria, sessions: seq<Proxy>, target: int, used: set<nat>, i: nat)
    requires IsNearest(c, sessions, target, used, i)
    ensures Eligible(c, sessions, target, used, i)
  {
  }

  function Used(used: set<nat>, r: Option<nat>): set<nat> {
    if r.Some? then used + {r.value} else used
  }

  /** The set of used indexes that the caller shares between calls. */
  class UsedIndexes {
    var indexes: set<nat>

    constructor ()
      ensures indexes == {}
    {
      indexes := {};
    }
  }

  method NearestSession(c: Criteria, sessions: seq<Proxy>, target: Option<int>, used: UsedIndexes) returns (r: Option<nat>)
    modifies used
    ensures r == Nearest(c, sessions, target, old(used.indexes))
    ensures used.indexes == Used(old(used.indexes), r)
  {
    if target.None? {
      return None;
    }
    var nearestIndex: Option<nat> := None;
    var nearestDistance := 0;
    for index := 0 to |sessions|
      invariant used.indexes == old(used.indexes)
      invariant nearestIndex == NearestBefore(c, sessions, target.value, used.indexes, index)
      invariant nearestIndex.Some? ==> nearestDistance == DistanceAt(sessions, target.value, nearestIndex.value)
    {
      var session := sessions[index];
      if index in used.indexes || !c.accepts(session) {
        continue;
      }
      if session.start.None? {
        continue;
      }
      var distance := Distance(session.start.value, target.value);
      if distance > c.maxDelta {
        continue;
      }
      if nearestIndex.None? || distance < nearestDistance {
        nearestDistance := distance;
        nearestIndex := Some(index);
      }
    }
    if nearestIndex.None? {
      return None;
    }
    used.indexes := used.indexes + {nearestIndex.value};
    return nearestIndex;
  }

  /* ---------- building the attempts ---------- */

  /** Content sessions within 30 seconds, and game sessions that sent at least 500 bytes within 8. */
  const CONTENT: Criteria := Criteria((p: Proxy) => p.route == "tls-http-content", 30_000_000)
  const LOGIN_RAW: Criteria := Criteria((p: Proxy) => p.route == "raw-game" && p.toRemoteBytes >= 500, 8_000_000)

  /** A world session's start, when it can be read, and its stage sequence. */
  datatype World = World(start: Option<int>, stages: seq<string>)

  datatype Attempt = Attempt(
    attemptIndex: nat, content: Option<nat>, loginRaw: Option<nat>, server: Option<ServerAttempt>, outcome: Outcome, needs: seq<Need>)

  function Starts(worlds: seq<World>): (starts: seq<Option<int>>)
    ensures |starts| == |worlds|
  {
    seq(|worlds|, i requires 0 <= i < |worlds| => worlds[i].start)
  }

  function ContentOf(sessions: seq<Proxy>, choice: Option<nat>): Option<Proxy> {
    if choice.Some? && choice.value < |sessions| then Some(sessions[choice.value]) else None
  }

  /* ---------- what an attempt still needs, and how it ended ---------- */

  predicate DeliversArchives(content: Option<Proxy>) {
    content.Some? && content.value.archiveRequests > 0
  }

  predicate ReadsTablesOnly(content: Option<Proxy>) {
    content.Some? && content.value.referenceTableRequests > 0 && content.value.archiveRequests <= 0
  }

  function OrElse(text: string, otherwise: string): string {
    if text != "" then text else otherwise
  }

  /** What is asked for, one constructor per wording; the words around label and stage are left out. */
  datatype Need =
    | ArchiveAfter(request: string)
    | AlignedCapture
    | ChannelPast(stage: string)
    | SceneTransition
    | ArchiveAfterInterfaces

  /** What the content session leaves to be asked for. */
  function ContentNeeds(content: Option<Proxy>): seq<Need> {
    (if ReadsTablesOnly(content) then [ArchiveAfter(OrElse(content.value.firstRequestLabel, "reference table"))] else [])
    + (if content.None? then [AlignedCapture] else [])
  }

  /** What the server attempt does. */
  function ServerNeeds(server: Option<ServerAttempt>): seq<Need> {
    (if server.Some? && server.value.channelClosed then [ChannelPast(OrElse(server.value.closeStage, "unknown"))] else [])
    + (if server.Some? && server.value.bootstrapFinished then [SceneTransition] else [])
  }

  /** The needs in the order they are noted. */
  function NeedsOf(world: World, server: Option<ServerAttempt>, content: Option<Proxy>): seq<Need> {
    ContentNeeds(content) + ServerNeeds(server)
    + (if "interfaces" in world.stages && !DeliversArchives(content) then [ArchiveAfterInterfaces] else [])
  }

  function Rank(need: Need): nat {
    match need
    case ArchiveAfter(_) => 0
    case AlignedCapture => 1
    case ChannelPast(_) => 2
    case SceneTransition => 3
    case ArchiveAfterInterfaces => 4
  }

  /** Every need is noted once, in the order of its kind. */
  lemma NeedsAreDistinct(world: World, server: Option<ServerAttempt>, content: Option<Proxy>)
    ensures var needs := NeedsOf(world, server, content);
            forall i, j :: 0 <= i < j < |needs| ==> Rank(needs[i]) < Rank(needs[j])
  {
    hide OrElse;
  }

  /** The closing loop: with nothing repeated nothing is removed. */
  method Deduplicated(needs: seq<Need>) returns (deduped: seq<Need>)
    requires forall i, j :: 0 <= i < j < |needs| ==> Rank(needs[i]) < Rank(needs[j])
    ensures deduped == needs
  {
    deduped := [];
    for i := 0 to |needs|
      invariant deduped == needs[..i]
    {
      assert forall j :: 0 <= j < i ==> needs[j] != needs[i];
      if needs[i] !in deduped {
        deduped := deduped + [needs[i]];
      }
    }
  }

  /** `attempt_needs`, the removal of repeated needs included; it never removes one. */
  method AttemptNeeds(world: World, server: Option<ServerAttempt>, content: Option<Proxy>) returns (deduped: seq<Need>)
    ensures deduped == NeedsOf(world, server, content)
  {
    hide OrElse;
    var needs: seq<Need> := [];
    if ReadsTablesOnly(content) {
      needs := needs + [ArchiveAfter(OrElse(content.value.firstRequestLabel, "reference table"))];
    }
    if content.None? {
      needs := needs + [AlignedCapture];
    }
    assert needs == ContentNeeds(content);
    ghost var noted := needs;
    if server.Some? && server.value.channelClosed {
      needs := needs + [ChannelPast(OrElse(server.value.closeStage, "unknown"))];
    }
    if server.Some? && server.value.bootstrapFinished {
      needs := needs + [SceneTransition];
    }
    assert needs == noted + ServerNeeds(server);
    hide ContentNeeds, ServerNeeds, DeliversArchives;
    if "interfaces" in world.stages && !DeliversArchives(content) {
      needs := needs + [ArchiveAfterInterfaces];
    }
    assert needs == NeedsOf(world, server, content);
    NeedsAreDistinct(world, server, content);
    hide NeedsOf;
    deduped := Deduplicated(needs);
  }

  datatype Outcome =
    | ArchiveDeliveryTruncated
    | ArchiveDeliveryObserved
    | ReferenceTableLoopback
    | ReferenceTablesOnly
    | InterfacesLoopback
    | WorldLoopbackUnclassified

  /** `attempt_outcome` of a world session. */
  function OutcomeOf(server: Option<ServerAttempt>, content: Option<Proxy>): Outcome {
    var atInterfaces := server.Some? && server.value.closeStage == "interfaces";
    if DeliversArchives(content) then
      (if content.value.truncatedResponse then ArchiveDeliveryTruncated else ArchiveDeliveryObserved)
    else if content.Some? && content.value.referenceTableRequests > 0 then
      (if atInterfaces then ReferenceTableLoopback else ReferenceTablesOnly)
    else if atInterfaces then InterfacesLoopback
    else WorldLoopbackUnclassified
  }

  predicate IsDelivery(outcome: Outcome) {
    outcome.ArchiveDeliveryTruncated? || outcome.ArchiveDeliveryObserved?
  }

  predicate IsTableRead(outcome: Outcome) {
    outcome.ReferenceTableLoopback? || outcome.ReferenceTablesOnly?
  }

  /**
   Outcome and needs tell the same story. A delivery asks for no archive and no capture; reference
   tables were read exactly when the first archive behind them is asked for; and a server attempt
   that a log line closed at the interfaces makes a loopback outcome exactly when no archive came.
   */
  lemma OutcomeFitsNeeds(world: World, server: Option<ServerAttempt>, content: Option<Proxy>)
    ensures var outcome, needs := OutcomeOf(server, content), NeedsOf(world, server, content);
            && (IsDelivery(outcome) ==> forall need :: need in needs ==> need.ChannelPast? || need.SceneTransition?)
            && (IsTableRead(outcome) <==> exists need :: need in needs && need.ArchiveAfter?)
            && (AlignedCapture in needs ==> !IsDelivery(outcome) && !IsTableRead(outcome))
            && (server.Some? && server.value.channelClosed && server.value.closeStage == "interfaces" ==>
                  ChannelPast("interfaces") in needs
                  && (outcome.ReferenceTableLoopback? || outcome.InterfacesLoopback? <==> !IsDelivery(outcome)))
  {
    var needs := NeedsOf(world, server, content);
    if ReadsTablesOnly(content) {
      assert needs[0].ArchiveAfter? && needs[0] in needs;
    }
    assert OrElse("interfaces", "unknown") == "interfaces" by {
      assert "interfaces" != "";
    }
  }

  /* ---------- pairing in turn ---------- */

  /** The choices for the first `n` world sessions, made in turn, each taking its session out of the pool. */
  function Choices(c: Criteria, starts: seq<Option<int>>, sessions: seq<Proxy>, n: nat): (choices: seq<Option<nat>>)
    requires n <= |starts|
    ensures |choices| == n
  {
    if n == 0 then []
    else
      var before := Choices(c, starts, sessions, n - 1);
      before + [Nearest(c, sessions, starts[n - 1], Taken(before))]
  }

  /** The sessions already paired. */
  function Taken(choices: seq<Option<nat>>): set<nat> {
    if choices == [] then {} else Used(Taken(choices[..|choices| - 1]), choices[|choices| - 1])
  }

  /** The server attempt of world session `i`: both lists are aligned at their ends. */
  function ServerFor(worlds: nat, servers: seq<ServerAttempt>, i: nat): Option<ServerAttempt>
    requires i < worlds
  {
    var j := i + |servers| - worlds;
    if j >= 0 then Some(servers[j]) else None
  }

  /** `server_attempts[-pair_count:] if pair_count else []`. */
  function LastOf(servers: seq<ServerAttempt>, count: nat): seq<ServerAttempt>
    requires count <= |servers|
  {
    servers[|servers| - count..]
  }

  /** The attempt of world session `i`. */
  function AttemptOf(worlds: seq<World>, servers: seq<ServerAttempt>, sessions: seq<Proxy>, content: Option<nat>, loginRaw: Option<nat>,
                     i: nat): Attempt
    requires i < |worlds|
  {
    var server, proxy := ServerFor(|worlds|, servers, i), ContentOf(sessions, content);
    Attempt(i + 1, content, loginRaw, server, OutcomeOf(server, proxy), NeedsOf(worlds[i], server, proxy))
  }

  /** The outcome of an attempt, each of the six if and only if its condition holds of what the attempt is paired with. */
  predicate OutcomeExplained(attempt: Attempt, sessions: seq<Proxy>) {
    && (attempt.content.Some? ==> attempt.content.value < |sessions|)
    && var archives := attempt.content.Some? && sessions[attempt.content.value].archiveRequests > 0;
    && var tables := attempt.content.Some? && sessions[attempt.content.value].referenceTableRequests > 0;
    && var interfaces := attempt.server.Some? && attempt.server.value.closeStage == "interfaces";
    && (attempt.outcome == ArchiveDeliveryTruncated <==> archives && sessions[attempt.content.value].truncatedResponse)
    && (attempt.outcome == ArchiveDeliveryObserved <==> archives && !sessions[attempt.content.value].truncatedResponse)
    && (attempt.outcome == ReferenceTableLoopback <==> !archives && tables && interfaces)
    && (attempt.outcome == ReferenceTablesOnly <==> !archives && tables && !interfaces)
    && (attempt.outcome == InterfacesLoopback <==> !archives && !tables && interfaces)
    && (attempt.outcome == WorldLoopbackUnclassified <==> !archives && !tables && !interfaces)
  }

  /** Its needs, each of the five if and only if its condition holds, with the label or stage it names; once each and in order. */
  ghost predicate NeedsExplained(attempt: Attempt, world: World, sessions: seq<Proxy>) {
    && (attempt.content.Some? ==> attempt.content.value < |sessions|)
    && var archives := attempt.content.Some? && sessions[attempt.content.value].archiveRequests > 0;
    && var tables := attempt.content.Some? && sessions[attempt.content.value].referenceTableRequests > 0;
    && var first := if attempt.content.Some? then sessions[attempt.content.value].firstRequestLabel else "";
    && var server := attempt.server;
    && (forall request :: ArchiveAfter(request) in attempt.needs <==>
          !archives && tables && request == if first != "" then first else "reference table")
    && (AlignedCapture in attempt.needs <==> attempt.content.None?)
    && (forall stage :: ChannelPast(stage) in attempt.needs <==>
          server.Some? && server.value.channelClosed && stage == if server.value.closeStage != "" then server.value.closeStage else "unknown")
    && (SceneTransition in attempt.needs <==> server.Some? && server.value.bootstrapFinished)
    && (ArchiveAfterInterfaces in attempt.needs <==> "interfaces" in world.stages && !archives)
    && forall i, j :: 0 <= i < j < |attempt.needs| ==> Rank(attempt.needs[i]) < Rank(attempt.needs[j])
  }

  lemma ContentNeedsAre(content: Option<Proxy>)
    ensures forall need :: need in ContentNeeds(content) <==>
              || (ReadsTablesOnly(content) && need == ArchiveAfter(OrElse(content.value.firstRequestLabel, "reference table")))
              || (content.None? && need == AlignedCapture)
  {
    hide OrElse;
  }

  lemma ServerNeedsAre(server: Option<ServerAttempt>)
    ensures forall need :: need in ServerNeeds(server) <==>
              || (server.Some? && server.value.channelClosed && need == ChannelPast(OrElse(server.value.closeStage, "unknown")))
              || (server.Some? && server.value.bootstrapFinished && need == SceneTransition)
  {
    hide OrElse;
  }

  lemma NeedsAre(world: World, server: Option<ServerAttempt>, content: Option<Proxy>)
    ensures forall need :: need in NeedsOf(world, server, content) <==>
              || need in ContentNeeds(content) || need in ServerNeeds(server)
              || ("interfaces" in world.stages && !DeliversArchives(content) && need == ArchiveAfterInterfaces)
  {
    hide ContentNeeds, ServerNeeds, DeliversArchives;
  }

  /** Attempt `i`: its number, the choices and the server attempt made for world session `i`, and what follows from these. */
  ghost predicate AttemptExplained(worlds: seq<World>, servers: seq<ServerAttempt>, sessions: seq<Proxy>, i: nat, attempt: Attempt)
    requires i < |worlds|
  {
    var starts := Starts(worlds);
    && attempt.attemptIndex == i + 1
    && attempt.content == Choices(CONTENT, starts, sessions, |starts|)[i]
    && attempt.loginRaw == Choices(LOGIN_RAW, starts, sessions, |starts|)[i]
    && (attempt.server.Some? <==> |worlds| - i <= |servers|)
    && (|worlds| - i <= |servers| ==> attempt.server.value == servers[|servers| - (|worlds| - i)])
    && OutcomeExplained(attempt, sessions)
    && NeedsExplained(attempt, worlds[i], sessions)
  }

  lemma OutcomeAndNeeds(worlds: seq<World>, servers: seq<ServerAttempt>, sessions: seq<Proxy>, content: Option<nat>, loginRaw: Option<nat>,
                        i: nat)
    requires i < |worlds| && (content.Some? ==> content.value < |sessions|)
    ensures var attempt := AttemptOf(worlds, servers, sessions, content, loginRaw, i);
            OutcomeExplained(attempt, sessions) && NeedsExplained(attempt, worlds[i], sessions)
  {
    hide NeedsOf, ContentNeeds, ServerNeeds, Rank;
    var server, proxy := ServerFor(|worlds|, servers, i), ContentOf(sessions, content);
    NeedsAreDistinct(worlds[i], server, proxy);
    NeedsAre(worlds[i], server, proxy);
    ContentNeedsAre(proxy);
    ServerNeedsAre(server);
  }

  lemma AllExplained(worlds: seq<World>, servers: seq<ServerAttempt>, sessions: seq<Proxy>, attempts: seq<Attempt>)
    requires |attempts| == |worlds|
    requires var starts := Starts(worlds);
             forall i :: 0 <= i < |worlds| ==>
               attempts[i] == AttemptOf(worlds, servers, sessions, Choices(CONTENT, starts, sessions, |starts|)[i],
                                Choices(LOGIN_RAW, starts, sessions, |starts|)[i], i)
    ensures forall i :: 0 <= i < |worlds| ==> AttemptExplained(worlds, servers, sessions, i, attempts[i])
  {
    hide OutcomeOf, NeedsOf, OutcomeExplained, NeedsExplained, Choices;
    var starts := Starts(worlds);
    forall i | 0 <= i < |worlds|
      ensures AttemptExplained(worlds, servers, sessions, i, attempts[i])
    {
      ChoiceInside(CONTENT, starts, sessions, i);
      OutcomeAndNeeds(worlds, servers, sessions, Choices(CONTENT, starts, sessions, |starts|)[i],
        Choices(LOGIN_RAW, starts, sessions, |starts|)[i], i);
    }
  }

  method BuildAttempts(worlds: seq<World>, servers: seq<ServerAttempt>, sessions: seq<Proxy>) returns (attempts: seq<Attempt>)
    ensures |attempts| == |worlds|
    ensures forall i :: 0 <= i < |worlds| ==> AttemptExplained(worlds, servers, sessions, i, attempts[i])
    ensures var starts := Starts(worlds);
            forall i :: 0 <= i < |worlds| ==>
              attempts[i] == AttemptOf(worlds, servers, sessions, Choices(CONTENT, starts, sessions, |starts|)[i],
                               Choices(LOGIN_RAW, starts, sessions, |starts|)[i], i)
  {
    hide Nearest, Taken, OutcomeOf, NeedsOf, AttemptExplained;
    attempts := [];
    ghost var starts := Starts(worlds);
    var pairCount := if |worlds| < |servers| then |worlds| else |servers|;
    var paired := LastOf(servers, pairCount);
    var offset := |worlds| - pairCount;
    var usedContent := new UsedIndexes();
    var usedLoginRaw := new UsedIndexes();
    ghost var contents: seq<Option<nat>> := [];
    ghost var logins: seq<Option<nat>> := [];
    NothingTaken();
    for i := 0 to |worlds|
      invariant |attempts| == i
      invariant contents == Choices(CONTENT, starts, sessions, i) && logins == Choices(LOGIN_RAW, starts, sessions, i)
      invariant usedContent.indexes == Taken(contents) && usedLoginRaw.indexes == Taken(logins)
      invariant forall k :: 0 <= k < i ==> attempts[k] == AttemptOf(worlds, servers, sessions, contents[k], logins[k], k)
    {
      var content := NearestSession(CONTENT, sessions, worlds[i].start, usedContent);
      var loginRaw := NearestSession(LOGIN_RAW, sessions, worlds[i].start, usedLoginRaw);
      var server: Option<ServerAttempt> := None;
      if i >= offset && paired != [] {
        server := Some(paired[i - offset]);
      }
      var needs := AttemptNeeds(worlds[i], server, ContentOf(sessions, content));
      TakenGrows(contents, content);
      TakenGrows(logins, loginRaw);
      contents := contents + [content];
      logins := logins + [loginRaw];
      attempts := attempts + [Attempt(i + 1, content, loginRaw, server, OutcomeOf(server, ContentOf(sessions, content)), needs)];
    }
    AllExplained(worlds, servers, sessions, attempts);
  }

  lemma ChoiceInside(c: Criteria, starts: seq<Option<int>>, sessions: seq<Proxy>, i: nat)
    requires i < |starts|
    ensures var choice := Choices(c, starts, sessions, |starts|)[i];
            choice.Some? ==> choice.value < |sessions|
  {
    hide Taken, Choices, Nearest;
    ChoiceIsNearestUnused(c, starts, sessions, i);
  }

  lemma NothingTaken()
    ensures Taken([]) == {}
  {
  }

  lemma TakenGrows(choices: seq<Option<nat>>, r: Option<nat>)
    ensures Taken(choices + [r]) == Used(Taken(choices), r)
  {
    assert (choices + [r])[..|choices|] == choices;
  }

  lemma {:induction false} TakenAre(choices: seq<Option<nat>>, i: nat)
    ensures i in Taken(choices) <==> Some(i) in choices
    decreases |choices|
  {
    if choices != [] {
      var n := |choices| - 1;
      TakenAre(choices[..n], i);
      assert choices == choices[..n] + [choices[n]];
    }
  }

  /** A longer run of choices starts with the shorter one. */
  lemma {:induction false} ChoicesPrefix(c: Criteria, starts: seq<Option<int>>, sessions: seq<Proxy>, m: nat, n: nat)
    requires m <= n <= |starts|
    ensures Choices(c, starts, sessions, n)[..m] == Choices(c, starts, sessions, m)
    decreases n
  {
    if m < n {
      ChoicesPrefix(c, starts, sessions, m, n - 1);
      assert Choices(c, starts, sessions, n)[..m] == Choices(c, starts, sessions, n - 1)[..m];
    }
  }

  /**
   The choice for world session `i`: the nearest eligible one of those that no earlier world
   session was given, if the world session has a start and there is one; none otherwise.
   */
  lemma ChoiceIsNearestUnused(c: Criteria, starts: seq<Option<int>>, sessions: seq<Proxy>, i: nat)
    requires i < |starts|
    ensures var choices := Choices(c, starts, sessions, |starts|);
            var used := Taken(choices[..i]);
            if choices[i].Some? then starts[i].Some? && IsNearest(c, sessions, starts[i].value, used, choices[i].value)
            else starts[i].None? || forall j: nat :: !Eligible(c, sessions, starts[i].value, used, j)
  {
    hide Taken, Nearest;
    var choices := Choices(c, starts, sessions, |starts|);
    ChoicesPrefix(c, starts, sessions, i, |starts|);
    ChoicesPrefix(c, starts, sessions, i + 1, |starts|);
    assert choices[i] == choices[..i + 1][i] == Nearest(c, sessions, starts[i], Taken(choices[..i]));
    if starts[i].Some? {
      NearestIsNearest(c, sessions, starts[i].value, Taken(choices[..i]));
    } else {
      NothingWithoutTarget(c, sessions, Taken(choices[..i]));
    }
  }

  /** A content session that started within 30 seconds of `time`. */
  predicate ContentAround(session: Proxy, time: int) {
    session.route == "tls-http-content" && session.start.Some? && -30_000_000 <= session.start.value - time <= 30_000_000
  }

  /** A game session that sent at least 500 bytes and started within 8 seconds of `time`. */
  predicate LoginAround(session: Proxy, time: int) {
    && session.route == "raw-game" && session.toRemoteBytes >= 500
    && session.start.Some? && -8_000_000 <= session.start.value - time <= 8_000_000
  }

  function Gap(session: Proxy, time: int): nat {
    if session.start.None? then 0
    else if session.start.value < time then time - session.start.value
    else session.start.value - time
  }

  /** `choice` is the nearest such session not yet chosen, the first on ties; none only when there is none left. */
  ghost predicate PicksNearest(fits: (Proxy, int) -> bool, sessions: seq<Proxy>, start: Option<int>, chosen: seq<Option<nat>>,
                               choice: Option<nat>)
  {
    if choice.None? then
      start.None? || forall j: nat :: j < |sessions| && fits(sessions[j], start.value) ==> Some(j) in chosen
    else
      && start.Some? && choice.value < |sessions| && fits(sessions[choice.value], start.value) && choice !in chosen
      && forall j: nat :: j < |sessions| && fits(sessions[j], start.value) && Some(j) !in chosen ==>
           || Gap(sessions[choice.value], start.value) < Gap(sessions[j], start.value)
           || (Gap(sessions[choice.value], start.value) == Gap(sessions[j], start.value) && choice.value <= j)
  }

  lemma PicksNearestOf(c: Criteria, fits: (Proxy, int) -> bool, starts: seq<Option<int>>, sessions: seq<Proxy>, i: nat)
    requires i < |starts|
    requires forall x, t :: fits(x, t) <==> c.accepts(x) && x.start.Some? && Distance(x.start.value, t) <= c.maxDelta
    ensures var choices := Choices(c, starts, sessions, |starts|);
            PicksNearest(fits, sessions, starts[i], choices[..i], choices[i])
  {
    hide Taken, Choices;
    var choices := Choices(c, starts, sessions, |starts|);
    var chosen := choices[..i];
    ChoiceIsNearestUnused(c, starts, sessions, i);
    if starts[i].Some? {
      forall j: nat
        ensures Eligible(c, sessions, starts[i].value, Taken(chosen), j)
                <==> j < |sessions| && fits(sessions[j], starts[i].value) && Some(j) !in chosen
      {
        TakenAre(chosen, j);
      }
    }
  }

  /** The two pairings spelled out. */
  lemma PairedSessions(starts: seq<Option<int>>, sessions: seq<Proxy>, i: nat)
    requires i < |starts|
    ensures var contents := Choices(CONTENT, starts, sessions, |starts|);
            PicksNearest(ContentAround, sessions, starts[i], contents[..i], contents[i])
    ensures var logins := Choices(LOGIN_RAW, starts, sessions, |starts|);
            PicksNearest(LoginAround, sessions, starts[i], logins[..i], logins[i])
  {
    PicksNearestOf(CONTENT, ContentAround, starts, sessions, i);
    PicksNearestOf(LOGIN_RAW, LoginAround, starts, sessions, i);
  }

  /** No proxy session is given to two world sessions, and every pair is within its time limit. */
  lemma ChoicesAreDistinct(c: Criteria, starts: seq<Option<int>>, sessions: seq<Proxy>, i: nat, j: nat)
    requires i < j < |starts|
    ensures var choices := Choices(c, starts, sessions, |starts|);
            choices[j].Some? ==>
              && choices[i] != choices[j]
              && choices[j].value < |sessions| && sessions[choices[j].value].start.Some? && starts[j].Some?
              && Distance(sessions[choices[j].value].start.value, starts[j].value) <= c.maxDelta
  {
    hide Taken, Choices, IsNearest;
    var choices := Choices(c, starts, sessions, |starts|);
    ChoiceIsNearestUnused(c, starts, sessions, j);
    if choices[j].Some? {
      NearestIsEligible(c, sessions, starts[j].value, Taken(choices[..j]), choices[j].value);
      TakenAre(choices[..j], choices[j].value);
      assert choices[..j][i] == choices[i];
    }
  }

  /** A session is never used both as a content session and as a login session. */
  lemma KindsDoNotMix(starts: seq<Option<int>>, sessions: seq<Proxy>, i: nat, j: nat)
    requires i < |starts| && j < |starts|
    ensures var contents, logins := Choices(CONTENT, starts, sessions, |starts|), Choices(LOGIN_RAW, starts, sessions, |starts|);
            contents[i].Some? && logins[j].Some? ==> contents[i].value != logins[j].value
  {
    hide Taken, Choices;
    ChoiceIsNearestUnused(CONTENT, starts, sessions, i);
    ChoiceIsNearestUnused(LOGIN_RAW, starts, sessions, j);
  }

  /** Server attempts are aligned from the tail: the last world session has the last attempt, and none is used twice. */
  lemma ServersAlignFromTail(worlds: nat, servers: seq<ServerAttempt>, i: nat)
    requires i < worlds
    ensures ServerFor(worlds, servers, i).Some? <==> worlds - i <= |servers|
    ensures worlds - i <= |servers| ==> ServerFor(worlds, servers, i).value == servers[|servers| - (worlds - i)]
  {
  }
}

/** Runs of the bridge from its initial state that reach two tick loops, frames out of order, and stops
    that return only after another start. */
module BridgeRuns {
  import opened Wrappers
  import opened BridgeState
  import opened BridgeProtocol
  import opened BridgePaths
  import opened BridgeStops
  import opened BridgeSerial
  import opened BridgeLoops
  import opened BridgeOverlap

  // ---------- such starts are reached ----------

  ghost predicate Reached(p: Proto) {
    LeadsWith(Initial, p, true)
  }

  lemma ReachesOn(p: Proto, l: Label, q: Proto)
    requires Reached(p) && Enabled(p, l) && Next(p, l) == q
    ensures Reached(q)
  {
    LeadsFurther(Initial, p, l, q, true);
  }

  const ON := Shared(Some(0), true, true, Some(1), Some(2), [])
  const OFF := Shared(Some(0), true, false, None, None, [])

  const P1 := Initial.(connects := 1)
  const P2 := Initial.(sh := OFF, unused := 1)
  const P3 := P2.(sh := ON, starts := map[3 := 1], unused := 4)
  const P4 := P3.(sh := OFF, stops := map[4 := CloseListener(Some(2), Some(1))], unused := 5)
  const P5 := P4.(stops := map[4 := CloseChannel(Some(2), Some(1))], closedListeners := {1})
  const P6 := P5.(stops := map[4 := CloseConns(Some(2), Some(1))], closes := multiset{2})
  const P7 := P6.(stops := map[4 := Waiting(Some(2), Some(1))])
  const P8 := P7.(stops := map[])

  lemma ConnectStep(p: Proto)
    requires !p.sh.running && AfterDrop(p.sh) == p.sh && p.connects == 0
    ensures Next(p, ConnectBegins) == p.(connects := 1)
  {
  }

  lemma ConnectStarts(p: Proto)
    requires Reached(p) && !p.sh.running && AfterDrop(p.sh) == p.sh && p.connects == 0
    ensures Reached(p.(connects := 1))
  {
    ConnectStep(p);
    ReachesOn(p, ConnectBegins, p.(connects := 1));
  }

  lemma ConnectComes()
    ensures Reached(P1)
  {
    LeadsNowhere(Initial, true);
    ConnectStarts(Initial);
  }

  lemma ConnectIsDone()
    requires Reached(P1)
    ensures Reached(P2)
  {
    ReachesOn(P1, ConnectEnds(true), P2);
  }

  lemma StartComes()
    requires Reached(P2)
    ensures Reached(P3)
  {
    ReachesOn(P2, StartBegins(9000, true), P3);
  }

  lemma StopOvertakes()
    requires Reached(P3)
    ensures Reached(P4)
  {
    ReachesOn(P3, StopBegins(false), P4);
  }

  lemma StopClosesListener()
    requires Reached(P4)
    ensures Reached(P5)
  {
    ReachesOn(P4, ClosesListener(4), P5);
  }

  lemma StopClosesChannel()
    requires Reached(P5)
    ensures Reached(P6)
  {
    ReachesOn(P5, ClosesChannel(4), P6);
  }

  lemma StopClosesConns()
    requires Reached(P6)
    ensures Reached(P7)
  {
    ReachesOn(P6, ClosesConns(4), P7);
  }

  /** The wait group is still empty, so the stop does not wait for the loops to come. */
  lemma StopDoesNotWait()
    requires Reached(P7)
    ensures Reached(P8)
  {
    ReachesOn(P7, StopReturns(4), P8);
  }

  lemma StopHasReturned(p: Proto)
    requires p == P8
    ensures Reached(p) && p.starts != map[] && p.sequence == 0 && Starts(p, StartBegins(9000, true))
  {
    ConnectComes();
    ConnectIsDone();
    StartComes();
    StopOvertakes();
    StopClosesListener();
    StopClosesChannel();
    StopClosesConns();
    StopDoesNotWait();
    assert 3 in p.starts;
  }

  lemma ReachedIsSafe(p: Proto)
    requires Reached(p)
    ensures Safe(p) && InUse(p)
  {
    var run := LeadingRun(Initial, p, true);
    InitiallySafe();
    EveryRunIsSafe(Initial, run);
    EveryRunIsInUse(Initial, run);
  }

  lemma QuietSoFar(p: Proto)
    requires p == P8 && Safe(p)
    ensures Orderly(p)
  {
  }

  /** A stop that overtakes a starting call returns, and the next start finds that call. */
  lemma StartFindsAnother() returns (p: Proto, l: Label)
    ensures Reached(p) && Orderly(p) && InUse(p) && Enabled(p, l) && Starts(p, l) && p.starts != map[]
      && p.sequence == 0
  {
    p, l := P8, StartBegins(9000, true);
    StopHasReturned(p);
    ReachedIsSafe(p);
    QuietSoFar(p);
  }

  lemma ReachedAcross(p: Proto, l: Label, q: Proto)
    requires Reached(p) && Enabled(p, l) && Leads(Next(p, l), q)
    ensures Reached(q)
  {
    ReachesOn(p, l, Next(p, l));
    LeadsAnyway(Next(p, l), q);
    LeadsAcross(Initial, Next(p, l), q, true);
  }

  /** So two tick loops are reached. */
  lemma TwoTickLoops() returns (q: Proto)
    ensures Reached(q) && |q.ticks| >= 2
  {
    var p, l := StartFindsAnother();
    q := TwoLoops(p, l);
    ReachedAcross(p, l, q);
  }

  lemma FirstFramesCross(p: Proto, l: Label) returns (q: Proto, c: nat)
    requires Orderly(p) && InUse(p) && Enabled(p, l) && Starts(p, l) && p.starts != map[] && p.sequence == 0
    ensures Leads(Next(p, l), q) && c in q.logs && q.logs[c] == [2, 1]
  {
    StartingIsNotQuiet(p);
    q, c := FramesCross(p, l);
  }

  lemma StartingIsNotQuiet(p: Proto)
    requires p.starts != map[]
    ensures !Quiet(p)
  {
  }

  /** And a connection can be sent frame 2 before frame 1. */
  lemma FramesOutOfOrder() returns (q: Proto, c: nat)
    ensures Reached(q) && c in q.logs && q.logs[c] == [2, 1]
  {
    var p, l := StartFindsAnother();
    q, c := FirstFramesCross(p, l);
    ReachedAcross(p, l, q);
  }

  // ---------- blocked stops are reached ----------

  /** A state on a run in which no call overlaps a start. */
  ghost predicate ReachedSerially(p: Proto, run: seq<Label>) {
    SerialAfter(Initial, run) == Some(p)
  }

  lemma SerialOn(run: seq<Label>, p: Proto, l: Label, q: Proto)
    requires ReachedSerially(p, run) && Enabled(p, l) && Serialized(p, l) && Next(p, l) == q
    ensures ReachedSerially(q, run + [l])
  {
    SerialAfterSnoc(Initial, run, l);
  }

  const P4A := P3.(starts := map[], wg := 2, accepts := map[4 := Accepting(1)], ticks := map[5 := Spawned], unused := 6)
  const P5A := P4A.(sh := OFF, stops := map[6 := CloseListener(Some(2), Some(1))], unused := 7)

  lemma SerialConnectStarts(run: seq<Label>, p: Proto)
    requires ReachedSerially(p, run) && !p.sh.running && AfterDrop(p.sh) == p.sh && p.connects == 0
    ensures ReachedSerially(p.(connects := 1), run + [ConnectBegins])
  {
    ConnectStep(p);
    SerialOn(run, p, ConnectBegins, p.(connects := 1));
  }

  lemma SerialConnect()
    ensures ReachedSerially(P1, [] + [ConnectBegins])
  {
    SerialConnectStarts([], Initial);
  }

  lemma SerialConnected(run: seq<Label>)
    requires ReachedSerially(P1, run)
    ensures ReachedSerially(P2, run + [ConnectEnds(true)])
  {
    SerialOn(run, P1, ConnectEnds(true), P2);
  }

  lemma SerialStart(run: seq<Label>)
    requires ReachedSerially(P2, run)
    ensures ReachedSerially(P3, run + [StartBegins(9000, true)])
  {
    SerialOn(run, P2, StartBegins(9000, true), P3);
  }

  lemma SerialLaunch(run: seq<Label>)
    requires ReachedSerially(P3, run)
    ensures ReachedSerially(P4A, run + [StartSpawns(3)])
  {
    SerialOn(run, P3, StartSpawns(3), P4A);
  }

  lemma SerialStop(run: seq<Label>)
    requires ReachedSerially(P4A, run)
    ensures ReachedSerially(P5A, run + [StopBegins(false)])
  {
    SerialOn(run, P4A, StopBegins(false), P5A);
  }

  /** A connection, a start whose loops are launched, and a stop before the tick loop has run: one
      call after the other, and no run without another start returns the stop. */
  lemma StopTooSoon(p: Proto, t: nat) returns (run: seq<Label>)
    requires p == P5A && t == 6
    ensures ReachedSerially(p, run) && t in p.stops && !CanReturn(p, t)
  {
    run := [] + [ConnectBegins];
    SerialConnect();
    SerialConnected(run);
    run := run + [ConnectEnds(true)];
    SerialStart(run);
    run := run + [StartBegins(9000, true)];
    SerialLaunch(run);
    run := run + [StartSpawns(3)];
    SerialStop(run);
    run := run + [StopBegins(false)];
    TooSoonIsBlocked(p, run, t);
  }

  lemma TooSoonIsBlocked(p: Proto, run: seq<Label>, t: nat)
    requires p == P5A && t == 6 && ReachedSerially(p, run)
    ensures Accounted(p) && t in p.stops && !CanReturn(p, t)
  {
    assert 5 in p.ticks && Stuck(p.ticks[5]);
    InitiallySerial();
    SerialRunsHaveOneTickLoop(Initial, run);
    SerialIsAccounted(p);
    StopReturnsIff(p, t);
  }

  /** Another start and stop return it. */
  lemma TooSoonIsFreed(p: Proto, run: seq<Label>, t: nat) returns (later: seq<Label>)
    requires p == P5A && t == 6 && ReachedSerially(p, run)
    ensures After(p, later).Some? && t !in After(p, later).value.stops
  {
    TooSoonIsBlocked(p, run, t);
    later := AnotherStartFrees(p, t);
  }

  lemma InitiallySerial()
    ensures Serial(Initial)
  {
    InitiallySafe();
  }

  // ---------- a loop of an earlier start ----------

  lemma LaunchesBeside(start: Proto, t: nat, k: nat) returns (r: Proto, own: nat)
    requires t in start.starts && k in start.ticks && k < start.unused && start.ticks[k] == Select(None)
    ensures Leads(start, r) && r.sh == start.sh && own in r.ticks && r.ticks[own].Spawned?
    ensures k in r.ticks && r.ticks[k] == Select(None) && own != k
  {
    LeadsNowhere(start, false);
    Launches(start, start, t);
    r, own := Launched(start, t), start.unused + 1;
  }

  lemma StartsRunning(p: Proto, l: Label)
    requires Enabled(p, l) && Starts(p, l)
    ensures Next(p, l).sh.running && Next(p, l).sh.stop.Some? && p.unused + 2 in Next(p, l).starts
    ensures Next(p, l).ticks == p.ticks && p.unused < Next(p, l).unused
  {
  }

  lemma StopsBeside(start: Proto, p: Proto, own: nat, k: nat) returns (q: Proto, t: nat)
    requires Leads(start, p) && p.sh.running && p.sh.stop.Some? && own in p.ticks && p.ticks[own].Spawned?
    requires k in p.ticks && p.ticks[k] == Select(None) && own != k
    ensures Leads(start, q) && t in q.stops && own in q.ticks && q.stops[t].ch.Some?
    ensures ChanOf(q.ticks[own]) == q.stops[t].ch && Blocked(q)
  {
    Captures(start, p, own);
    var u := Turned(p, own);
    q, t := Next(u, StopBegins(false)), u.unused;
    LeadsOn(start, u, StopBegins(false), q);
    assert k in q.ticks && Stuck(q.ticks[k]);
  }

  /** A start beside a loop without a channel, and its stop: the start's own tick loop has its channel
      before the stop begins, and the stop is blocked all the same. */
  lemma LateLoop(p: Proto, l: Label, k: nat) returns (q: Proto, t: nat, own: nat)
    requires Enabled(p, l) && Starts(p, l) && k in p.ticks && k < p.unused && p.ticks[k] == Select(None)
    ensures Leads(Next(p, l), q) && t in q.stops && own in q.ticks && q.stops[t].ch.Some?
    ensures ChanOf(q.ticks[own]) == q.stops[t].ch && Blocked(q)
  {
    StartsRunning(p, l);
    var r;
    r, own := LaunchesBeside(Next(p, l), p.unused + 2, k);
    q, t := StopsBeside(Next(p, l), r, own, k);
  }

  const P9 := P8.(starts := map[], wg := 2, accepts := map[5 := Accepting(1)], ticks := map[6 := Spawned], unused := 7)
  const P10 := P9.(ticks := map[6 := Select(None)])

  lemma LateSpawn()
    requires Reached(P8)
    ensures Reached(P9)
  {
    ReachesOn(P8, StartSpawns(3), P9);
  }

  lemma LateCapture()
    requires Reached(P9)
    ensures Reached(P10)
  {
    ReachesOn(P9, TickCaptures(6), P10);
  }

  lemma LateStart(p: Proto)
    requires p == P10
    ensures Starts(p, StartBegins(9000, true)) && 6 in p.ticks && p.ticks[6] == Select(None) && 6 < p.unused
  {
  }

  /** That is reached too: the stop of the earlier start returned before its loops were launched. */
  lemma LateLoopIsReached() returns (q: Proto, t: nat, own: nat)
    ensures Reached(q) && t in q.stops && own in q.ticks && q.stops[t].ch.Some?
    ensures ChanOf(q.ticks[own]) == q.stops[t].ch && !CanReturn(q, t)
  {
    StopHasReturned(P8);
    LateSpawn();
    LateCapture();
    var p := P10;
    LateStart(p);
    var l := StartBegins(9000, true);
    q, t, own := LateLoop(p, l, 6);
    ReachedAcross(p, l, q);
    ReachedIsAccounted(q);
    StopReturnsIff(q, t);
  }

  lemma ReachedIsAccounted(p: Proto)
    requires Reached(p)
    ensures Accounted(p)
  {
    var run := LeadingRun(Initial, p, true);
    InitiallyAccounted();
    EveryRunIsAccounted(Initial, run);
  }
}

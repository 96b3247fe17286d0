/** The bridge when no call overlaps a start: one tick loop and one accept loop at a time, and a
    stop that returns exactly when that tick loop has its channel. */
module BridgeSerial {
  import opened Wrappers
  import opened BridgeState
  import opened BridgeProtocol
  import opened BridgePaths
  import opened BridgeStops

  /** A start begins only when no call is under way, and a stop, the tick loop's own included, only
      when no start is; stops may overlap. */
  predicate Serialized(p: Proto, l: Label) {
    (l.StartBegins? || l.StopBegins? ==> p.starts == map[]) && (l.StartBegins? ==> p.stops == map[])
  }

  /** As After, for runs in which no call overlaps a start. */
  function SerialAfter(p: Proto, run: seq<Label>): Option<Proto> {
    if run == [] then Some(p)
    else
      var m := SerialAfter(p, run[..|run| - 1]);
      if m.Some? && Enabled(m.value, run[|run| - 1]) && Serialized(m.value, run[|run| - 1])
      then Some(Next(m.value, run[|run| - 1])) else None
  }

  // ---------- calls and loops ----------

  ghost predicate One<T>(m: map<nat, T>) {
    forall x, y :: x in m && y in m ==> x == y
  }

  /** At most one call is under way and at most one loop of each kind lives; none lives while
      a start has yet to launch its own, nor when the bridge is off and no stop is under way. */
  ghost predicate CallsAgree(running: bool, starts: map<nat, StartPc>, stops: map<nat, StopPc>,
                             accepts: map<nat, AcceptPc>, ticks: map<nat, TickPc>)
  {
    One(starts) && One(stops) && One(accepts) && One(ticks)
    && (starts != map[] ==> stops == map[] && running && accepts == map[] && ticks == map[])
    && (stops != map[] ==> !running)
    && (!running && stops == map[] ==> accepts == map[] && ticks == map[])
  }

  /** The loop has not read its stop channel yet, or found none. */
  predicate Deaf(pc: TickPc) {
    ChanOf(pc).None?
  }

  /** Loops serve the listener and, unless deaf, hold the channel of the running bridge or of
      the stop under way; a loop that found no channel only ever waits. */
  ghost predicate LoopsAgree(sh: Shared, starts: map<nat, StartPc>, stops: map<nat, StopPc>,
                             accepts: map<nat, AcceptPc>, ticks: map<nat, TickPc>)
  {
    (forall s :: s in starts ==> sh.listener == Some(starts[s]))
    && (forall a :: a in accepts && sh.running ==> sh.listener == Some(accepts[a].ln))
    && (forall k :: k in ticks && sh.running ==> ticks[k].Spawned? || (ChanOf(ticks[k]) == sh.stop && sh.stop.Some?))
    && (forall a, t :: a in accepts && t in stops ==> stops[t].ln == Some(accepts[a].ln))
    && (forall k, t :: k in ticks && t in stops ==> Deaf(ticks[k]) || ChanOf(ticks[k]) == stops[t].ch)
    && (forall k :: k in ticks && Deaf(ticks[k]) ==> ticks[k].Spawned? || ticks[k].Select?)
    && (forall t :: t in stops ==> stops[t].ch.Some? && stops[t].ln.Some?)
  }

  ghost predicate ClosingAgrees(stops: map<nat, StopPc>, closedListeners: set<nat>, closes: multiset<nat>) {
    (forall t :: t in stops && !stops[t].CloseListener? && stops[t].ln.Some? ==> stops[t].ln.value in closedListeners)
    && (forall t :: t in stops && (stops[t].CloseConns? || stops[t].Waiting?) && stops[t].ch.Some? ==>
      stops[t].ch.value in closes)
  }

  ghost predicate Serial(p: Proto) {
    Safe(p) && CallsAgree(p.sh.running, p.starts, p.stops, p.accepts, p.ticks)
    && LoopsAgree(p.sh, p.starts, p.stops, p.accepts, p.ticks)
    && ClosingAgrees(p.stops, p.closedListeners, p.closes)
  }

  lemma NoLoops(p: Proto)
    requires LoopsCounted(p.wg, p.accepts, p.ticks, p.unused) && p.wg == 0
    ensures p.accepts == map[] && p.ticks == map[]
  {
    assert |p.accepts| == 0 && |p.ticks| == 0;
  }

  lemma StartCalls(p: Proto, l: Label)
    requires CallsAgree(p.sh.running, p.starts, p.stops, p.accepts, p.ticks)
    requires Enabled(p, l) && Serialized(p, l) && OfStart(l)
    ensures CallsAgree(NextShared(p, l).running, NextStarts(p, l), NextStops(p, l), NextAccepts(p, l), NextTicks(p, l))
  {
    if l.StartSpawns? {
      assert NextStarts(p, l) == map[];
    }
  }

  lemma StopReturnCalls(p: Proto, l: Label)
    requires CallsAgree(p.sh.running, p.starts, p.stops, p.accepts, p.ticks)
    requires Enabled(p, l) && l.StopReturns?
    requires LoopsCounted(p.wg, p.accepts, p.ticks, p.unused)
    ensures CallsAgree(NextShared(p, l).running, NextStarts(p, l), NextStops(p, l), NextAccepts(p, l), NextTicks(p, l))
  {
    NoLoops(p);
    assert l.t in p.stops;
  }

  lemma StopBeginCalls(p: Proto, l: Label)
    requires CallsAgree(p.sh.running, p.starts, p.stops, p.accepts, p.ticks)
    requires Enabled(p, l) && Serialized(p, l) && l.StopBegins?
    ensures CallsAgree(NextShared(p, l).running, NextStarts(p, l), NextStops(p, l), NextAccepts(p, l), NextTicks(p, l))
  {
    if p.sh.running {
      assert p.unused in NextStops(p, l);
    }
  }

  lemma StopCalls(p: Proto, l: Label)
    requires CallsAgree(p.sh.running, p.starts, p.stops, p.accepts, p.ticks)
    requires Enabled(p, l) && OfStop(l) && !l.StopBegins? && !l.StopReturns?
    ensures CallsAgree(NextShared(p, l).running, NextStarts(p, l), NextStops(p, l), NextAccepts(p, l), NextTicks(p, l))
  {
    assert l.t in p.stops && p.stops != map[] && p.starts == map[];
    assert l.t in NextStops(p, l) && NextStops(p, l) != map[];
    assert forall t :: t in NextStops(p, l) ==> t in p.stops;
    assert NextShared(p, l) == p.sh && NextStarts(p, l) == p.starts && NextAccepts(p, l) == p.accepts
      && NextTicks(p, l) == p.ticks;
  }

  lemma AcceptCalls(p: Proto, l: Label)
    requires CallsAgree(p.sh.running, p.starts, p.stops, p.accepts, p.ticks)
    requires Enabled(p, l) && Serialized(p, l) && OfAccept(l)
    ensures CallsAgree(NextShared(p, l).running, NextStarts(p, l), NextStops(p, l), NextAccepts(p, l), NextTicks(p, l))
  {
  }

  lemma OtherCalls(p: Proto, l: Label)
    requires CallsAgree(p.sh.running, p.starts, p.stops, p.accepts, p.ticks)
    requires Enabled(p, l) && Serialized(p, l) && !OfStart(l) && !OfStop(l) && !OfAccept(l)
    ensures CallsAgree(NextShared(p, l).running, NextStarts(p, l), NextStops(p, l), NextAccepts(p, l), NextTicks(p, l))
  {
  }

  lemma NextCalls(p: Proto, l: Label)
    requires CallsAgree(p.sh.running, p.starts, p.stops, p.accepts, p.ticks)
    requires LoopsCounted(p.wg, p.accepts, p.ticks, p.unused)
    requires Enabled(p, l) && Serialized(p, l)
    ensures CallsAgree(NextShared(p, l).running, NextStarts(p, l), NextStops(p, l), NextAccepts(p, l), NextTicks(p, l))
  {
    if OfStart(l) {
      StartCalls(p, l);
    } else if l.StopReturns? {
      StopReturnCalls(p, l);
    } else if l.StopBegins? {
      StopBeginCalls(p, l);
    } else if OfStop(l) {
      StopCalls(p, l);
    } else if OfAccept(l) {
      AcceptCalls(p, l);
    } else {
      OtherCalls(p, l);
    }
  }

  lemma StartLoops(p: Proto, l: Label)
    requires FlagsAgree(p.sh) && CallsAgree(p.sh.running, p.starts, p.stops, p.accepts, p.ticks)
    requires LoopsAgree(p.sh, p.starts, p.stops, p.accepts, p.ticks)
    requires Enabled(p, l) && Serialized(p, l) && OfStart(l)
    ensures LoopsAgree(NextShared(p, l), NextStarts(p, l), NextStops(p, l), NextAccepts(p, l), NextTicks(p, l))
  {
  }

  lemma StopLoops(p: Proto, l: Label)
    requires FlagsAgree(p.sh) && CallsAgree(p.sh.running, p.starts, p.stops, p.accepts, p.ticks)
    requires LoopsAgree(p.sh, p.starts, p.stops, p.accepts, p.ticks)
    requires Enabled(p, l) && Serialized(p, l) && OfStop(l)
    ensures LoopsAgree(NextShared(p, l), NextStarts(p, l), NextStops(p, l), NextAccepts(p, l), NextTicks(p, l))
  {
  }

  lemma AcceptLoops(p: Proto, l: Label)
    requires FlagsAgree(p.sh) && CallsAgree(p.sh.running, p.starts, p.stops, p.accepts, p.ticks)
    requires LoopsAgree(p.sh, p.starts, p.stops, p.accepts, p.ticks)
    requires Enabled(p, l) && Serialized(p, l) && OfAccept(l)
    ensures LoopsAgree(NextShared(p, l), NextStarts(p, l), NextStops(p, l), NextAccepts(p, l), NextTicks(p, l))
  {
  }

  /** What LoopsAgree says of one tick loop. */
  ghost predicate TickFits(pc: TickPc, sh: Shared, stops: map<nat, StopPc>) {
    (sh.running ==> pc.Spawned? || (ChanOf(pc) == sh.stop && sh.stop.Some?))
    && (forall t :: t in stops ==> Deaf(pc) || ChanOf(pc) == stops[t].ch)
    && (Deaf(pc) ==> pc.Spawned? || pc.Select?)
  }

  lemma TickStaysFit(p: Proto, l: Label, k: nat)
    requires FlagsAgree(p.sh) && (p.sh.running ==> p.stops == map[])
    requires Enabled(p, l) && OfTick(l) && k in NextTicks(p, l)
    requires k in p.ticks ==> TickFits(p.ticks[k], p.sh, p.stops)
    ensures TickFits(NextTicks(p, l)[k], NextShared(p, l), p.stops)
  {
  }

  lemma TickLoops(p: Proto, l: Label)
    requires FlagsAgree(p.sh) && CallsAgree(p.sh.running, p.starts, p.stops, p.accepts, p.ticks)
    requires LoopsAgree(p.sh, p.starts, p.stops, p.accepts, p.ticks)
    requires Enabled(p, l) && OfTick(l)
    ensures LoopsAgree(NextShared(p, l), NextStarts(p, l), NextStops(p, l), NextAccepts(p, l), NextTicks(p, l))
  {
    forall k | k in NextTicks(p, l) ensures TickFits(NextTicks(p, l)[k], NextShared(p, l), p.stops) {
      TickStaysFit(p, l, k);
    }
  }

  lemma OtherLoops(p: Proto, l: Label)
    requires FlagsAgree(p.sh) && CallsAgree(p.sh.running, p.starts, p.stops, p.accepts, p.ticks)
    requires LoopsAgree(p.sh, p.starts, p.stops, p.accepts, p.ticks)
    requires Enabled(p, l) && !OfStart(l) && !OfStop(l) && !OfAccept(l) && !OfTick(l)
    ensures LoopsAgree(NextShared(p, l), NextStarts(p, l), NextStops(p, l), NextAccepts(p, l), NextTicks(p, l))
  {
  }

  lemma NextLoops(p: Proto, l: Label)
    requires FlagsAgree(p.sh) && CallsAgree(p.sh.running, p.starts, p.stops, p.accepts, p.ticks)
    requires LoopsAgree(p.sh, p.starts, p.stops, p.accepts, p.ticks)
    requires Enabled(p, l) && Serialized(p, l)
    ensures LoopsAgree(NextShared(p, l), NextStarts(p, l), NextStops(p, l), NextAccepts(p, l), NextTicks(p, l))
  {
    if OfStart(l) {
      StartLoops(p, l);
    } else if OfStop(l) {
      StopLoops(p, l);
    } else if OfAccept(l) {
      AcceptLoops(p, l);
    } else if OfTick(l) {
      TickLoops(p, l);
    } else {
      OtherLoops(p, l);
    }
  }

  lemma NextClosing(p: Proto, l: Label)
    requires ClosingAgrees(p.stops, p.closedListeners, p.closes) && Enabled(p, l)
    ensures ClosingAgrees(NextStops(p, l), NextClosedListeners(p, l), NextCloses(p, l))
  {
  }

  lemma NextSerial(p: Proto, l: Label)
    requires Serial(p) && Enabled(p, l) && Serialized(p, l)
    ensures Serial(Next(p, l))
  {
    NextSafe(p, l);
    NextCalls(p, l);
    NextLoops(p, l);
    NextClosing(p, l);
  }

  /** When no call overlaps a start, at most one tick loop and one accept loop live at any time. */
  lemma {:induction false} SerialRunsHaveOneTickLoop(p: Proto, run: seq<Label>)
    requires Serial(p) && SerialAfter(p, run).Some?
    ensures Serial(SerialAfter(p, run).value)
    ensures |SerialAfter(p, run).value.ticks| <= 1 && |SerialAfter(p, run).value.accepts| <= 1
  {
    if run != [] {
      SerialRunsHaveOneTickLoop(p, run[..|run| - 1]);
      NextSerial(SerialAfter(p, run[..|run| - 1]).value, run[|run| - 1]);
    }
    OneIsAtMostOne(SerialAfter(p, run).value.ticks);
    OneIsAtMostOne(SerialAfter(p, run).value.accepts);
  }

  lemma OneIsAtMostOne<T>(m: map<nat, T>)
    requires One(m)
    ensures |m| <= 1
  {
    if x :| x in m {
      assert m.Keys == {x};
    } else {
      assert m == map[];
    }
  }

  // ---------- when a stop can return ----------

  /** A tick loop that has not read its stop channel, or found it gone. */
  ghost predicate HasDeafLoop(ticks: map<nat, TickPc>) {
    exists k :: k in ticks && Deaf(ticks[k])
  }

  lemma SerialIsAccounted(p: Proto)
    requires Serial(p)
    ensures Accounted(p)
  {
    forall k | k in p.ticks && ChanOf(p.ticks[k]).Some?
      ensures ChanKept(p.sh.stop, p.stops, p.closes, ChanOf(p.ticks[k]).value)
    {
      if !p.sh.running {
        var t :| t in p.stops;
        assert Owes(p.stops[t], ChanOf(p.ticks[k]).value) || ChanOf(p.ticks[k]).value in p.closes;
      }
    }
    forall a | a in p.accepts ensures ListenerKept(p.sh.listener, p.stops, p.closedListeners, p.accepts[a].ln) {
      if !p.sh.running {
        var t :| t in p.stops;
        assert OwesListener(p.stops[t], p.accepts[a].ln) || p.accepts[a].ln in p.closedListeners;
      }
    }
  }

  /** When no call overlaps a start, a stop is blocked exactly by a loop without its channel. */
  lemma SerialBlockedIff(p: Proto, t: nat)
    requires Serial(p) && t in p.stops
    ensures Blocked(p) <==> HasDeafLoop(p.ticks)
  {
    assert p.stops != map[];
    forall k | k in p.ticks ensures Deaf(p.ticks[k]) <==> Stuck(p.ticks[k]) {
    }
  }

  lemma SerialAfterSnoc(p: Proto, run: seq<Label>, l: Label)
    ensures SerialAfter(p, run + [l])
         == var m := SerialAfter(p, run);
            if m.Some? && Enabled(m.value, l) && Serialized(m.value, l) then Some(Next(m.value, l)) else None
  {
    assert (run + [l])[..|run|] == run;
  }

  /** Without a start under way or to come, no call overlaps a start. */
  lemma {:induction false} NoStartsIsSerial(p: Proto, run: seq<Label>)
    requires p.starts == map[] && NoStarts(run) && After(p, run).Some?
    ensures SerialAfter(p, run) == After(p, run) && After(p, run).value.starts == map[]
  {
    if run != [] {
      NoStartsIsSerial(p, run[..|run| - 1]);
    }
  }

  lemma StillThere(p: Proto, run: seq<Label>, t: nat)
    requires !CanReturn(p, t) && NoStarts(run) && After(p, run).Some?
    ensures t in After(p, run).value.stops
  {
  }

  lemma SerialLast(p: Proto, run: seq<Label>, m: seq<Label>, q: Proto)
    requires run != [] && m == run[..|run| - 1] && After(p, m) == SerialAfter(p, m) == Some(q)
    requires SerialAfter(p, run).Some?
    ensures Serialized(q, run[|run| - 1]) && After(p, run) == SerialAfter(p, run)
  {
  }

  lemma NoStartLast(run: seq<Label>, m: seq<Label>)
    requires run != [] && m == run[..|run| - 1] && NoStarts(m) && !run[|run| - 1].StartBegins?
    ensures NoStarts(run)
  {
  }

  /** Beside a stop that cannot return without another start, no start begins. */
  lemma {:induction false} BesideItNoStarts(p: Proto, run: seq<Label>, t: nat)
    requires !CanReturn(p, t) && SerialAfter(p, run).Some?
    ensures NoStarts(run) && After(p, run) == SerialAfter(p, run)
  {
    if run != [] {
      var m := run[..|run| - 1];
      BesideItNoStarts(p, m, t);
      StillThere(p, m, t);
      var q := After(p, m).value;
      SerialLast(p, run, m, q);
      assert q.stops != map[];
      NoStartLast(run, m);
    }
  }

  /** In such runs a stop that overtakes the start of its tick loop stays where it is. */
  lemma DeafLoopBlocksStop(p: Proto, run: seq<Label>, t: nat)
    requires Serial(p) && t in p.stops && HasDeafLoop(p.ticks) && SerialAfter(p, run).Some?
    ensures t in SerialAfter(p, run).value.stops && HasDeafLoop(SerialAfter(p, run).value.ticks)
  {
    SerialIsAccounted(p);
    SerialBlockedIff(p, t);
    StopReturnsIff(p, t);
    BesideItNoStarts(p, run, t);
    BlockedNeverReturns(p, run, t);
    SerialRunsHaveOneTickLoop(p, run);
    SerialBlockedIff(SerialAfter(p, run).value, t);
  }

  /** And one can return in such a run exactly when its tick loop read the stop channel before the
      stop took it. */
  lemma SerialStopReturnsIff(p: Proto, t: nat)
    requires Serial(p) && t in p.stops
    ensures (exists run :: SerialAfter(p, run).Some? && t !in SerialAfter(p, run).value.stops)
       <==> !HasDeafLoop(p.ticks)
  {
    SerialIsAccounted(p);
    SerialBlockedIff(p, t);
    if HasDeafLoop(p.ticks) {
      forall run | SerialAfter(p, run).Some? ensures t in SerialAfter(p, run).value.stops {
        DeafLoopBlocksStop(p, run, t);
      }
    } else {
      StopReturnsIff(p, t);
      var run :| NoStarts(run) && After(p, run).Some? && t !in After(p, run).value.stops;
      NoStartsIsSerial(p, run);
    }
  }
}

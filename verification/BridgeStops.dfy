/** When a stop of the bridge can return, in any interleaving of calls, loops and watchers. */
module BridgeStops {
  import opened Collections
  import opened Wrappers
  import opened BridgeState
  import opened BridgeProtocol
  import opened BridgePaths

  // ---------- where channels and listeners are ----------

  function ChanOf(pc: TickPc): Option<nat> {
    match pc
    case Spawned => None
    case Select(ch) => ch
    case Check(ch) => ch
    case Lost(ch) => ch
    case Read(ch) => ch
    case Send(ch, _) => ch
  }

  /** The channel is with the service, owed by a stopping call, or closed. */
  ghost predicate ChanKept(stop: Option<nat>, stops: map<nat, StopPc>, closes: multiset<nat>, c: nat) {
    stop == Some(c) || c in closes || exists t :: t in stops && Owes(stops[t], c)
  }

  /** A stopping call that has yet to close this listener. */
  predicate OwesListener(pc: StopPc, n: nat) {
    pc.CloseListener? && pc.ln == Some(n)
  }

  ghost predicate ListenerKept(listener: Option<nat>, stops: map<nat, StopPc>, closed: set<nat>, n: nat) {
    listener == Some(n) || n in closed || exists t :: t in stops && OwesListener(stops[t], n)
  }

  /** Every channel that a tick loop has captured is accounted for. */
  ghost predicate ChannelsKept(ticks: map<nat, TickPc>, stop: Option<nat>, stops: map<nat, StopPc>,
                               closes: multiset<nat>)
  {
    forall k :: k in ticks && ChanOf(ticks[k]).Some? ==> ChanKept(stop, stops, closes, ChanOf(ticks[k]).value)
  }

  /** So is every listener that an accept loop serves or will serve. */
  ghost predicate ListenersKept(starts: map<nat, StartPc>, accepts: map<nat, AcceptPc>, listener: Option<nat>,
                                stops: map<nat, StopPc>, closed: set<nat>)
  {
    (forall s :: s in starts ==> ListenerKept(listener, stops, closed, starts[s]))
    && (forall a :: a in accepts ==> ListenerKept(listener, stops, closed, accepts[a].ln))
  }

  ghost predicate Accounted(p: Proto) {
    Safe(p) && ChannelsKept(p.ticks, p.sh.stop, p.stops, p.closes)
    && ListenersKept(p.starts, p.accepts, p.sh.listener, p.stops, p.closedListeners)
  }

  lemma ChanStays(p: Proto, l: Label, c: nat)
    requires FlagsAgree(p.sh) && (forall t :: t in p.stops ==> t < p.unused) && Enabled(p, l)
    requires ChanKept(p.sh.stop, p.stops, p.closes, c)
    ensures ChanKept(NextShared(p, l).stop, NextStops(p, l), NextCloses(p, l), c)
  {
    var later := NextStops(p, l);
    if p.sh.stop == Some(c) {
      if l.StopBegins? {
        assert p.unused in later && Owes(later[p.unused], c);
      }
    } else if c !in p.closes {
      var t :| t in p.stops && Owes(p.stops[t], c);
      if !(l.ClosesChannel? && l.t == t) {
        assert t in later && Owes(later[t], c);
      }
    }
  }

  lemma ListenerStays(p: Proto, l: Label, n: nat)
    requires FlagsAgree(p.sh) && (forall t :: t in p.stops ==> t < p.unused) && Enabled(p, l)
    requires ListenerKept(p.sh.listener, p.stops, p.closedListeners, n)
    ensures ListenerKept(NextShared(p, l).listener, NextStops(p, l), NextClosedListeners(p, l), n)
  {
    var later := NextStops(p, l);
    if p.sh.listener == Some(n) {
      if l.StopBegins? {
        assert p.unused in later && OwesListener(later[p.unused], n);
      }
    } else if n !in p.closedListeners {
      var t :| t in p.stops && OwesListener(p.stops[t], n);
      if !(l.ClosesListener? && l.t == t) {
        assert t in later && OwesListener(later[t], n);
      }
    }
  }

  lemma NextChannelsKept(p: Proto, l: Label)
    requires FlagsAgree(p.sh) && (forall t :: t in p.stops ==> t < p.unused) && Enabled(p, l)
    requires ChannelsKept(p.ticks, p.sh.stop, p.stops, p.closes)
    ensures ChannelsKept(NextTicks(p, l), NextShared(p, l).stop, NextStops(p, l), NextCloses(p, l))
  {
    var ticks := NextTicks(p, l);
    forall k | k in ticks && ChanOf(ticks[k]).Some?
      ensures ChanKept(NextShared(p, l).stop, NextStops(p, l), NextCloses(p, l), ChanOf(ticks[k]).value)
    {
      var c := ChanOf(ticks[k]).value;
      if !(l.TickCaptures? && l.k == k) {
        assert k in p.ticks && ChanOf(p.ticks[k]) == Some(c);
      }
      ChanStays(p, l, c);
    }
  }

  lemma NextListenersKept(p: Proto, l: Label)
    requires FlagsAgree(p.sh) && (forall t :: t in p.stops ==> t < p.unused) && Enabled(p, l)
    requires ListenersKept(p.starts, p.accepts, p.sh.listener, p.stops, p.closedListeners)
    ensures ListenersKept(NextStarts(p, l), NextAccepts(p, l), NextShared(p, l).listener, NextStops(p, l),
                          NextClosedListeners(p, l))
  {
    var starts, accepts := NextStarts(p, l), NextAccepts(p, l);
    forall s | s in starts
      ensures ListenerKept(NextShared(p, l).listener, NextStops(p, l), NextClosedListeners(p, l), starts[s])
    {
      if s in p.starts && starts[s] == p.starts[s] {
        ListenerStays(p, l, starts[s]);
      }
    }
    forall a | a in accepts
      ensures ListenerKept(NextShared(p, l).listener, NextStops(p, l), NextClosedListeners(p, l), accepts[a].ln)
    {
      if l.StartSpawns? && a == p.unused {
        ListenerStays(p, l, p.starts[l.t]);
      } else {
        assert a in p.accepts && accepts[a].ln == p.accepts[a].ln;
        ListenerStays(p, l, accepts[a].ln);
      }
    }
  }

  lemma NextAccounted(p: Proto, l: Label)
    requires Accounted(p) && Enabled(p, l)
    ensures Accounted(Next(p, l))
  {
    NextSafe(p, l);
    NextChannelsKept(p, l);
    NextListenersKept(p, l);
  }

  lemma InitiallyAccounted()
    ensures Accounted(Initial)
  {
    InitiallySafe();
  }

  /** In every interleaving, each channel that a tick loop has captured and each listener that an
      accept loop serves is with the service, owed by a stopping call, or closed. */
  lemma {:induction false} EveryRunIsAccounted(p: Proto, run: seq<Label>)
    requires Accounted(p) && After(p, run).Some?
    ensures Accounted(After(p, run).value)
  {
    if run != [] {
      EveryRunIsAccounted(p, run[..|run| - 1]);
      NextAccounted(After(p, run[..|run| - 1]).value, run[|run| - 1]);
    }
  }

  // ---------- loops that wait for ever ----------

  /** The loop has found no channel and has not seen the connection lost. */
  predicate Missed(pc: TickPc) {
    (pc.Select? || pc.Read? || pc.Send?) && pc.ch.None?
  }

  /** While the bridge is off the loop can only come to wait without a channel. */
  predicate Stuck(pc: TickPc) {
    pc.Spawned? || Missed(pc)
  }

  ghost predicate HasMissed(ticks: map<nat, TickPc>) {
    exists k :: k in ticks && Missed(ticks[k])
  }

  ghost predicate HasStuck(ticks: map<nat, TickPc>) {
    exists k :: k in ticks && Stuck(ticks[k])
  }

  /** Off: some tick loop has not read its channel or found none.  Running: some loop found none,
      and the connection is lost and not about to come back. */
  ghost predicate Blocked(p: Proto) {
    if p.sh.running then !p.sh.opcConnected && p.connects == 0 && HasMissed(p.ticks) else HasStuck(p.ticks)
  }

  lemma NextMissed(p: Proto, l: Label)
    requires Enabled(p, l) && p.sh.running && !p.sh.opcConnected && HasMissed(p.ticks)
    requires LoopsCounted(p.wg, p.accepts, p.ticks, p.unused)
    ensures HasMissed(NextTicks(p, l))
  {
    var k :| k in p.ticks && Missed(p.ticks[k]);
    assert k in NextTicks(p, l) && Missed(NextTicks(p, l)[k]);
  }

  lemma NextStuck(p: Proto, l: Label)
    requires Enabled(p, l) && FlagsAgree(p.sh) && !p.sh.running && HasStuck(p.ticks)
    requires LoopsCounted(p.wg, p.accepts, p.ticks, p.unused)
    ensures HasStuck(NextTicks(p, l))
  {
    var k :| k in p.ticks && Stuck(p.ticks[k]);
    assert k in NextTicks(p, l) && Stuck(NextTicks(p, l)[k]);
  }

  lemma SomeLoop(p: Proto)
    requires LoopsCounted(p.wg, p.accepts, p.ticks, p.unused) && HasStuck(p.ticks)
    ensures p.wg > 0
  {
    var k :| k in p.ticks && Stuck(p.ticks[k]);
    assert |p.ticks| > 0;
  }

  lemma MissedIsStuck(ticks: map<nat, TickPc>)
    requires HasMissed(ticks)
    ensures HasStuck(ticks)
  {
    var k :| k in ticks && Missed(ticks[k]);
    assert Stuck(ticks[k]);
  }

  lemma StaysBlocked(p: Proto, l: Label, t: nat)
    requires Accounted(p) && Blocked(p) && t in p.stops && Enabled(p, l) && !l.StartBegins?
    ensures Blocked(Next(p, l)) && t in Next(p, l).stops
  {
    if p.sh.running {
      NextMissed(p, l);
      MissedIsStuck(NextTicks(p, l));
      MissedIsStuck(p.ticks);
    } else {
      NextStuck(p, l);
    }
    SomeLoop(p);
  }

  /** Without another start, a blocked stop stays where it is. */
  lemma {:induction false} BlockedNeverReturns(p: Proto, run: seq<Label>, t: nat)
    requires Accounted(p) && Blocked(p) && t in p.stops && NoStarts(run) && After(p, run).Some?
    ensures Blocked(After(p, run).value) && t in After(p, run).value.stops
  {
    if run != [] {
      var m := run[..|run| - 1];
      BlockedNeverReturns(p, m, t);
      EveryRunIsAccounted(p, m);
      StaysBlocked(After(p, m).value, run[|run| - 1], t);
    }
  }

  // ---------- the work that is left ----------

  function TickRank(pc: TickPc): nat {
    match pc
    case Spawned => 2
    case Select(_) => 1
    case Lost(_) => 1
    case Send(_, _) => 2
    case Read(_) => 3
    case Check(_) => 4
  }

  function AcceptRank(pc: AcceptPc): nat {
    if pc.Accepting? then 1 else 2
  }

  function StopRank(pc: StopPc): nat {
    match pc
    case CloseListener(_, _) => 4
    case CloseChannel(_, _) => 3
    case CloseConns(_, _) => 2
    case Waiting(_, _) => 1
  }

  /** The steps that all stopping calls and all loops are from being done. */
  ghost function Work(p: Proto): nat {
    SumOf(p.stops, StopRank) + SumOf(p.ticks, TickRank) + SumOf(p.accepts, AcceptRank)
  }

  /** A step of a control call, or of one that has yet to launch its loops. */
  predicate OfCall(l: Label) {
    l.ConnectBegins? || l.ConnectEnds? || l.Disconnects? || OfStart(l) || l.StopBegins?
  }

  /** A step of a loop or of a stopping call, other than a new connection and a turn of the clock. */
  predicate OfWork(l: Label) {
    !OfCall(l) && !l.Accepts? && !l.TickFires? && !l.Watch?
  }

  lemma StopWork(p: Proto, l: Label)
    requires Enabled(p, l) && OfStop(l) && OfWork(l)
    ensures Work(Next(p, l)) < Work(p)
  {
    SumDrops(p.stops, StopRank, l.t);
    if !l.StopReturns? {
      SumReplaces(p.stops, StopRank, l.t, NextStops(p, l)[l.t]);
    }
  }

  lemma AcceptWork(p: Proto, l: Label)
    requires Enabled(p, l) && OfAccept(l) && OfWork(l)
    ensures Work(Next(p, l)) < Work(p)
  {
    SumDrops(p.accepts, AcceptRank, l.a);
    if l.Appends? {
      SumReplaces(p.accepts, AcceptRank, l.a, NextAccepts(p, l)[l.a]);
    }
  }

  lemma TickWork(p: Proto, l: Label)
    requires Enabled(p, l) && OfTick(l) && OfWork(l)
    ensures Work(Next(p, l)) < Work(p)
  {
    SumDrops(p.ticks, TickRank, l.k);
    if !l.TickStops? && !l.TickQuits? {
      SumReplaces(p.ticks, TickRank, l.k, NextTicks(p, l)[l.k]);
    }
  }

  /** Every such step lowers the work. */
  lemma WorkFalls(p: Proto, l: Label)
    requires Enabled(p, l) && OfWork(l)
    ensures Work(Next(p, l)) < Work(p) && Next(p, l).sh.running == p.sh.running
  {
    if OfStop(l) {
      StopWork(p, l);
    } else if OfAccept(l) {
      AcceptWork(p, l);
    } else {
      TickWork(p, l);
    }
  }

  // ---------- a stop of a bridge that is off ----------

  function StopLabel(p: Proto, u: nat): Label
    requires u in p.stops
  {
    match p.stops[u]
    case CloseListener(_, _) => ClosesListener(u)
    case CloseChannel(_, _) => ClosesChannel(u)
    case CloseConns(_, _) => ClosesConns(u)
    case Waiting(_, _) => StopReturns(u)
  }

  function TickLabel(p: Proto, k: nat): Label
    requires k in p.ticks
  {
    match p.ticks[k]
    case Spawned => TickCaptures(k)
    case Select(_) => TickStops(k)
    case Check(_) => TickDead(k)
    case Lost(_) => TickQuits(k)
    case Read(_) => TickReadFails(k)
    case Send(_, _) => TickSends(k, {})
  }

  function AcceptLabel(p: Proto, a: nat): Label
    requires a in p.accepts
  {
    if p.accepts[a].Accepting? then AcceptSeesClosed(a) else Appends(a)
  }

  lemma NotStuckAfter(p: Proto, l: Label)
    requires Enabled(p, l) && OfWork(l) && !l.TickAlive? && !HasStuck(p.ticks)
    ensures !HasStuck(NextTicks(p, l))
  {
    forall k | k in NextTicks(p, l) ensures !Stuck(NextTicks(p, l)[k]) {
      assert k in p.ticks && !Stuck(p.ticks[k]);
    }
  }

  /** Once all stopping calls wait, every channel and every listener that is accounted for is closed. */
  lemma AllClosed(p: Proto)
    requires Accounted(p) && !p.sh.running && forall u :: u in p.stops ==> p.stops[u].Waiting?
    ensures forall k :: k in p.ticks && ChanOf(p.ticks[k]).Some? ==> IsClosed(p, ChanOf(p.ticks[k]))
    ensures forall a :: a in p.accepts ==> p.accepts[a].ln in p.closedListeners
  {
  }

  lemma LoopMoves(p: Proto) returns (l: Label)
    requires Accounted(p) && !p.sh.running && forall u :: u in p.stops ==> p.stops[u].Waiting?
    requires !HasStuck(p.ticks) && p.wg != 0
    ensures Enabled(p, l) && OfWork(l) && !l.TickAlive? && !OfStop(l)
  {
    AllClosed(p);
    if k :| k in p.ticks {
      assert !Stuck(p.ticks[k]);
      l := TickLabel(p, k);
    } else {
      assert p.ticks == map[];
      assert p.accepts != map[];
      var a :| a in p.accepts;
      l := AcceptLabel(p, a);
    }
  }

  /** While a stop is under way, the bridge is off and no tick loop is stuck, some step of a loop or a
      stopping call is enabled that brings the return closer: no thread waits for another. */
  lemma StopProgresses(p: Proto, t: nat) returns (l: Label)
    requires Accounted(p) && !p.sh.running && t in p.stops && !HasStuck(p.ticks)
    ensures Enabled(p, l) && OfWork(l) && Work(Next(p, l)) < Work(p)
    ensures l == StopReturns(t)
         || (!Next(p, l).sh.running && t in Next(p, l).stops && !HasStuck(Next(p, l).ticks))
  {
    if u :| u in p.stops && !p.stops[u].Waiting? {
      l := StopLabel(p, u);
    } else if p.wg == 0 {
      l := StopReturns(t);
    } else {
      l := LoopMoves(p);
    }
    WorkFalls(p, l);
    NotStuckAfter(p, l);
  }

  lemma {:induction false} OffReturns(start: Proto, p: Proto, t: nat) returns (q: Proto)
    requires Leads(start, p) && Accounted(p) && !p.sh.running && t in p.stops && !HasStuck(p.ticks)
    ensures Leads(start, q) && t !in q.stops
    decreases Work(p)
  {
    var l := StopProgresses(p, t);
    q := Next(p, l);
    LeadsOn(start, p, l, q);
    if l != StopReturns(t) {
      NextAccounted(p, l);
      q := OffReturns(start, q, t);
    }
  }

  // ---------- every schedule ----------

  /** No tick loop lacks its channel. */
  ghost predicate AllListen(ticks: map<nat, TickPc>) {
    forall k :: k in ticks ==> ChanOf(ticks[k]).Some?
  }

  predicate AllWork(run: seq<Label>) {
    forall i :: 0 <= i < |run| ==> OfWork(run[i])
  }

  lemma NextListens(p: Proto, l: Label)
    requires AllListen(p.ticks) && Enabled(p, l) && OfWork(l)
    ensures AllListen(NextTicks(p, l))
  {
    forall k | k in NextTicks(p, l) ensures ChanOf(NextTicks(p, l)[k]).Some? {
      assert k in p.ticks && ChanOf(NextTicks(p, l)[k]) == ChanOf(p.ticks[k]);
    }
  }

  /** The bridge is off and every tick loop has its channel. */
  ghost predicate Closing(p: Proto) {
    Accounted(p) && !p.sh.running && AllListen(p.ticks)
  }

  lemma WorkStep(p: Proto, l: Label)
    requires Closing(p) && Enabled(p, l) && OfWork(l)
    ensures Closing(Next(p, l)) && Work(Next(p, l)) < Work(p)
  {
    NextAccounted(p, l);
    WorkFalls(p, l);
    NextListens(p, l);
  }

  lemma {:induction false} WorkRun(p: Proto, run: seq<Label>)
    requires Closing(p) && AllWork(run) && After(p, run).Some?
    ensures Closing(After(p, run).value) && Work(After(p, run).value) + |run| <= Work(p)
  {
    if run != [] {
      WorkRun(p, run[..|run| - 1]);
      WorkStep(After(p, run[..|run| - 1]).value, run[|run| - 1]);
    }
  }

  lemma LeavesByReturning(p: Proto, l: Label, t: nat)
    requires t in p.stops && Enabled(p, l) && l != StopReturns(t)
    ensures t in NextStops(p, l)
  {
  }

  lemma {:induction false} StopsUntilItReturns(p: Proto, run: seq<Label>, t: nat)
    requires t in p.stops && After(p, run).Some? && StopReturns(t) !in run
    ensures t in After(p, run).value.stops
  {
    if run != [] {
      var m, l := run[..|run| - 1], run[|run| - 1];
      assert run == m + [l];
      StopsUntilItReturns(p, m, t);
      LeavesByReturning(After(p, m).value, l, t);
    }
  }

  lemma ListeningIsFree(ticks: map<nat, TickPc>)
    requires AllListen(ticks)
    ensures !HasStuck(ticks)
  {
    forall k | k in ticks ensures !Stuck(ticks[k]) {
      assert ChanOf(ticks[k]).Some?;
    }
  }

  /** Once the bridge is off and every tick loop has its channel, the stop returns in every schedule:
      no run of steps of loops and stopping calls is longer than the work that is left, and none
      comes to an end before the stop has returned. */
  lemma EveryScheduleReturns(p: Proto, run: seq<Label>, t: nat)
    requires Closing(p) && t in p.stops && AllWork(run) && After(p, run).Some?
    ensures |run| <= Work(p)
    ensures StopReturns(t) in run || exists l :: OfWork(l) && Enabled(After(p, run).value, l)
  {
    WorkRun(p, run);
    var q := After(p, run).value;
    if StopReturns(t) !in run {
      StopsUntilItReturns(p, run, t);
      ListeningIsFree(q.ticks);
      var l := StopProgresses(q, t);
    }
  }

  // ---------- a stop overtaken by another start ----------

  /** How many steps a stuck loop is from having its channel or seeing the connection lost. */
  function SettleRank(pc: TickPc): nat {
    if !Stuck(pc) then 0 else if pc.Spawned? || pc.Select? then 1 else 2
  }

  function SettleLabel(pc: TickPc, k: nat): Label
    requires Stuck(pc)
  {
    match pc
    case Spawned => TickCaptures(k)
    case Select(_) => TickFires(k)
    case Read(_) => TickReadFails(k)
    case Send(_, _) => TickSends(k, {})
  }

  lemma SettleStep(p: Proto, k: nat, l: Label)
    requires FlagsAgree(p.sh) && p.sh.running && (p.sh.opcConnected || !HasMissed(p.ticks))
    requires k in p.ticks && Stuck(p.ticks[k]) && l == SettleLabel(p.ticks[k], k)
    ensures Enabled(p, l) && !l.StartBegins?
    ensures var q := Next(p, l);
      q.sh.running && q.stops == p.stops && (q.sh.opcConnected || !HasMissed(q.ticks))
      && SumOf(q.ticks, SettleRank) < SumOf(p.ticks, SettleRank)
  {
    assert Missed(p.ticks[k]) ==> HasMissed(p.ticks);
    assert NextTicks(p, l) == p.ticks[k := NextTicks(p, l)[k]];
    SumReplaces(p.ticks, SettleRank, k, NextTicks(p, l)[k]);
    if !p.sh.opcConnected {
      forall j | j in NextTicks(p, l) ensures !Missed(NextTicks(p, l)[j]) {
        assert j in p.ticks && !Missed(p.ticks[j]);
      }
    }
  }

  /** While the bridge runs, every loop can get its channel or come to see the connection lost. */
  lemma {:induction false} Settles(start: Proto, p: Proto) returns (q: Proto)
    requires Leads(start, p) && Accounted(p) && p.sh.running && (p.sh.opcConnected || !HasMissed(p.ticks))
    ensures Leads(start, q) && Accounted(q) && q.sh.running && q.stops == p.stops && !HasStuck(q.ticks)
    decreases SumOf(p.ticks, SettleRank)
  {
    q := p;
    if k :| k in p.ticks && Stuck(p.ticks[k]) {
      var l := SettleLabel(p.ticks[k], k);
      SettleStep(p, k, l);
      NextAccounted(p, l);
      LeadsOn(start, p, l, Next(p, l));
      q := Settles(start, Next(p, l));
    }
  }

  /** Then one more stop switches the bridge off, and all stops return. */
  lemma RunningReturns(start: Proto, p: Proto, t: nat) returns (q: Proto)
    requires Leads(start, p) && Accounted(p) && p.sh.running && (p.sh.opcConnected || !HasMissed(p.ticks))
    requires t in p.stops
    ensures Leads(start, q) && t !in q.stops
  {
    var settled := Settles(start, p);
    var off := Next(settled, StopBegins(false));
    LeadsOn(start, settled, StopBegins(false), off);
    NextAccounted(settled, StopBegins(false));
    q := OffReturns(start, off, t);
  }

  lemma FreeReturns(p: Proto, t: nat) returns (q: Proto)
    requires Accounted(p) && t in p.stops && !Blocked(p)
    ensures Leads(p, q) && t !in q.stops
  {
    LeadsNowhere(p, false);
    if !p.sh.running {
      q := OffReturns(p, p, t);
    } else if p.sh.opcConnected || !HasMissed(p.ticks) {
      q := RunningReturns(p, p, t);
    } else {
      var back := Next(p, ConnectEnds(true));
      LeadsOn(p, p, ConnectEnds(true), back);
      NextAccounted(p, ConnectEnds(true));
      q := RunningReturns(p, back, t);
    }
  }

  /** Some run without another start leads to the return of the stop. */
  ghost predicate CanReturn(p: Proto, t: nat) {
    exists run :: NoStarts(run) && After(p, run).Some? && t !in After(p, run).value.stops
  }

  /** In every state of every interleaving, a stop under way can return without another start
      exactly when it is not blocked: with the bridge off, when every tick loop has read its
      channel or seen the connection lost; with the bridge running again, also when the
      connection is there or about to come back. */
  lemma StopReturnsIff(p: Proto, t: nat)
    requires Accounted(p) && t in p.stops
    ensures CanReturn(p, t) <==> !Blocked(p)
  {
    if Blocked(p) {
      forall run | NoStarts(run) && After(p, run).Some? ensures t in After(p, run).value.stops {
        BlockedNeverReturns(p, run, t);
      }
    } else {
      var q := FreeReturns(p, t);
      var run := LeadingRun(p, q, false);
    }
  }

  // ---------- another start frees it ----------

  lemma Restarts(p: Proto) returns (q: Proto)
    requires Accounted(p) && !p.sh.running
    ensures LeadsWith(p, q, true) && Accounted(q) && q.sh.running && q.sh.opcConnected && q.stops == p.stops
  {
    LeadsNowhere(p, true);
    var a := Next(p, ConnectBegins);
    LeadsFurther(p, p, ConnectBegins, a, true);
    NextAccounted(p, ConnectBegins);
    var b := Next(a, ConnectEnds(true));
    LeadsFurther(p, a, ConnectEnds(true), b, true);
    NextAccounted(a, ConnectEnds(true));
    q := Next(b, StartBegins(9000, true));
    LeadsFurther(p, b, StartBegins(9000, true), q, true);
    NextAccounted(b, StartBegins(9000, true));
  }

  lemma SwitchesOff(p: Proto, t: nat) returns (q: Proto)
    requires Accounted(p) && t in p.stops
    ensures LeadsWith(p, q, true) && Accounted(q) && !q.sh.running && t in q.stops
  {
    LeadsNowhere(p, true);
    q := p;
    if p.sh.running {
      q := Next(p, StopBegins(false));
      LeadsFurther(p, p, StopBegins(false), q, true);
      NextAccounted(p, StopBegins(false));
    }
  }

  /** With another connection, start and stop, every stop can still return: the new start has a
      channel and a connection for the loops that are stuck. */
  lemma AnotherStartFrees(p: Proto, t: nat) returns (run: seq<Label>)
    requires Accounted(p) && t in p.stops
    ensures After(p, run).Some? && t !in After(p, run).value.stops
  {
    var off := SwitchesOff(p, t);
    var on := Restarts(off);
    LeadsNowhere(on, false);
    var q := RunningReturns(on, on, t);
    LeadsAnyway(on, q);
    LeadsAcross(p, off, on, true);
    LeadsAcross(p, on, q, true);
    run := LeadingRun(p, q, true);
  }
}

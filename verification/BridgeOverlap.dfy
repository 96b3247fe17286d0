/** The conditions of BridgeLoops are exact: a start that finds another loop can leave two of them
    alive, and one that finds a loop that can still send can put frames out of order. */
module BridgeOverlap {
  import opened Wrappers
  import opened BridgeState
  import opened BridgeProtocol
  import opened BridgePaths
  import opened BridgeSerial
  import opened BridgeLoops

  // ---------- numbers in use ----------

  /** Starting calls and listeners have numbers already in use. */
  ghost predicate Known(sh: Shared, starts: map<nat, StartPc>, stops: map<nat, StopPc>, closed: set<nat>, unused: nat) {
    (forall t :: t in starts ==> t < unused)
    && (sh.listener.Some? ==> sh.listener.value < unused)
    && (forall t :: t in stops && stops[t].ln.Some? ==> stops[t].ln.value < unused)
    && (forall n :: n in closed ==> n < unused)
  }

  ghost predicate InUse(p: Proto) {
    Known(p.sh, p.starts, p.stops, p.closedListeners, p.unused)
  }

  lemma NextInUse(p: Proto, l: Label)
    requires InUse(p) && Enabled(p, l)
    ensures Known(NextShared(p, l), NextStarts(p, l), NextStops(p, l), NextClosedListeners(p, l), p.unused + Used(p, l))
  {
  }

  lemma {:induction false} EveryRunIsInUse(p: Proto, run: seq<Label>)
    requires InUse(p) && After(p, run).Some?
    ensures InUse(After(p, run).value)
  {
    if run != [] {
      EveryRunIsInUse(p, run[..|run| - 1]);
      NextInUse(After(p, run[..|run| - 1]).value, run[|run| - 1]);
    }
  }

  // ---------- steps ----------

  function Launched(p: Proto, t: nat): Proto
    requires t in p.starts
  {
    p.(starts := p.starts - {t}, wg := p.wg + 2, accepts := p.accepts[p.unused := Accepting(p.starts[t])],
       ticks := p.ticks[p.unused + 1 := Spawned], unused := p.unused + 2)
  }

  lemma Launches(start: Proto, p: Proto, t: nat)
    requires Leads(start, p) && t in p.starts
    ensures Leads(start, Launched(p, t))
  {
    LeadsOn(start, p, StartSpawns(t), Launched(p, t));
  }

  function WithTick(p: Proto, k: nat, pc: TickPc): Proto {
    p.(ticks := p.ticks[k := pc])
  }

  predicate Live(sh: Shared) {
    sh.running && sh.opcConnected && sh.client.Some?
  }

  /** Where a tick loop that is not about to send goes next while the bridge is live. */
  function TurnOf(p: Proto, k: nat): TickPc
    requires k in p.ticks
  {
    match p.ticks[k]
    case Spawned => Select(p.sh.stop)
    case Select(ch) => Check(ch)
    case Check(ch) => Read(ch)
    case Read(ch) => Send(ch, p.sequence + 1)
    case Lost(_) => p.ticks[k]
    case Send(_, _) => p.ticks[k]
  }

  function Turned(p: Proto, k: nat): Proto
    requires k in p.ticks
  {
    p.(ticks := p.ticks[k := TurnOf(p, k)], sequence := if p.ticks[k].Read? then p.sequence + 1 else p.sequence)
  }

  lemma Captures(start: Proto, p: Proto, k: nat)
    requires Leads(start, p) && k in p.ticks && p.ticks[k].Spawned?
    ensures Leads(start, Turned(p, k))
  {
    LeadsOn(start, p, TickCaptures(k), Turned(p, k));
  }

  lemma Fires(start: Proto, p: Proto, k: nat)
    requires Leads(start, p) && k in p.ticks && p.ticks[k].Select? && Live(p.sh)
    ensures Leads(start, Turned(p, k))
  {
    LeadsOn(start, p, TickFires(k), Turned(p, k));
  }

  lemma Alive(start: Proto, p: Proto, k: nat)
    requires Leads(start, p) && k in p.ticks && p.ticks[k].Check?
    ensures Leads(start, Turned(p, k))
  {
    LeadsOn(start, p, TickAlive(k), Turned(p, k));
  }

  lemma Reads(start: Proto, p: Proto, k: nat)
    requires Leads(start, p) && k in p.ticks && p.ticks[k].Read?
    ensures Leads(start, Turned(p, k))
  {
    LeadsOn(start, p, TickReads(k, true), Turned(p, k));
  }

  lemma Turns(start: Proto, p: Proto, k: nat)
    requires Leads(start, p) && k in p.ticks && !p.ticks[k].Lost? && !p.ticks[k].Send? && Live(p.sh)
    ensures Leads(start, Turned(p, k))
  {
    match p.ticks[k]
    case Spawned => Captures(start, p, k);
    case Select(_) => Fires(start, p, k);
    case Check(_) => Alive(start, p, k);
    case Read(_) => Reads(start, p, k);
  }

  lemma LogsOne(logs: map<nat, seq<nat>>, c: nat, n: nat)
    ensures Logged(logs, [c], {}, n) == logs[c := (if c in logs then logs[c] else []) + [n]]
  {
    var t, u := Logged(logs, [c], {}, n), logs[c := (if c in logs then logs[c] else []) + [n]];
    assert Elements([c]) == {c};
    assert t.Keys == u.Keys;
    forall d | d in t ensures t[d] == u[d] {
      if d != c { assert d !in [c] && t[d] == logs[d] + []; }
    }
  }

  function AfterSend(p: Proto, k: nat, c: nat): Proto
    requires k in p.ticks && p.ticks[k].Send?
  {
    WithTick(p, k, Select(p.ticks[k].ch)).(logs := p.logs[c := Log(p, c) + [p.ticks[k].n]])
  }

  lemma Sends(start: Proto, p: Proto, k: nat, c: nat)
    requires Leads(start, p) && k in p.ticks && p.ticks[k].Send? && p.sh.clients == [c]
    ensures Leads(start, AfterSend(p, k, c))
  {
    assert [c][..0] == [] && Surviving([c], {}) == [c];
    LogsOne(p.logs, c, p.ticks[k].n);
    LeadsOn(start, p, TickSends(k, {}), AfterSend(p, k, c));
  }

  function Arrived(p: Proto, a: nat): Proto
    requires a in p.accepts
  {
    p.(accepts := p.accepts[a := Accepted(p.accepts[a].ln, p.unused)], unused := p.unused + 1)
  }

  function Joined(p: Proto, a: nat): Proto
    requires a in p.accepts && p.accepts[a].Accepted?
  {
    p.(sh := p.sh.(clients := p.sh.clients + [p.accepts[a].conn]),
      accepts := p.accepts[a := Accepting(p.accepts[a].ln)])
  }

  lemma Arrives(start: Proto, p: Proto, a: nat)
    requires Leads(start, p) && a in p.accepts && p.accepts[a].Accepting? && p.accepts[a].ln !in p.closedListeners
    ensures Leads(start, Arrived(p, a))
  {
    LeadsOn(start, p, Accepts(a), Arrived(p, a));
  }

  lemma Joins(start: Proto, p: Proto, a: nat)
    requires Leads(start, p) && a in p.accepts && p.accepts[a].Accepted?
    ensures Leads(start, Joined(p, a))
  {
    LeadsOn(start, p, Appends(a), Joined(p, a));
  }

  lemma JoinsAfter(start: Proto, p: Proto, a: nat)
    requires Leads(start, p) && a in p.accepts && p.accepts[a].Accepting? && p.accepts[a].ln !in p.closedListeners
    ensures Leads(start, Joined(Arrived(p, a), a))
  {
    Arrives(start, p, a);
    Joins(start, Arrived(p, a), a);
  }

  // ---------- two tick loops ----------

  /** What a start that goes through leaves behind. */
  lemma Started(p: Proto, l: Label)
    requires Enabled(p, l) && Starts(p, l)
    ensures var q := Next(p, l);
      q.sh == AfterStart(p.sh, p.unused, p.unused + 1) && q.starts == p.starts[p.unused + 2 := p.unused]
        && q.unused == p.unused + 3
      && q.ticks == p.ticks && q.accepts == p.accepts && q.closedListeners == p.closedListeners
      && q.logs == p.logs && q.sequence == p.sequence
  {
  }

  lemma TwoKeys<T>(m: map<nat, T>, i: nat, k: nat)
    requires i in m && k in m && i != k
    ensures |m| >= 2
  {
    assert {i, k} <= m.Keys;
    var rest := m.Keys - {i, k};
    assert m.Keys == {i, k} + rest;
  }

  lemma LaunchedTwice(p: Proto, s: nat, t: nat)
    requires s in p.starts && t in p.starts && s != t
    ensures t in Launched(p, s).starts && |Launched(Launched(p, s), t).ticks| >= 2
  {
    var q := Launched(p, s);
    assert t in q.starts && p.unused + 1 in q.ticks && q.unused == p.unused + 2;
    var r := Launched(q, t);
    assert r.ticks == q.ticks[q.unused + 1 := Spawned];
    TwoKeys(r.ticks, p.unused + 1, q.unused + 1);
  }

  lemma TwoSpawns(start: Proto, s: nat, t: nat)
    requires s in start.starts && t in start.starts && s != t
    ensures t in Launched(start, s).starts && Leads(start, Launched(Launched(start, s), t))
  {
    LeadsNowhere(start, false);
    Launches(start, start, s);
    assert t in Launched(start, s).starts;
    Launches(start, Launched(start, s), t);
  }

  lemma OneSpawn(start: Proto, s: nat, k: nat) returns (q: Proto)
    requires s in start.starts && k in start.ticks && k < start.unused
    ensures Leads(start, q) && |q.ticks| >= 2
  {
    LeadsNowhere(start, false);
    Launches(start, start, s);
    q := Launched(start, s);
    TwoKeys(q.ticks, k, start.unused + 1);
  }

  lemma StartedTick(p: Proto, l: Label, k: nat)
    requires Safe(p) && Enabled(p, l) && Starts(p, l) && k in p.ticks
    ensures p.unused + 2 in Next(p, l).starts && k in Next(p, l).ticks && k < Next(p, l).unused
  {
    Started(p, l);
  }

  lemma StartedPair(p: Proto, l: Label, t: nat)
    requires InUse(p) && Enabled(p, l) && Starts(p, l) && t in p.starts
    ensures p.unused + 2 in Next(p, l).starts && t in Next(p, l).starts && t != p.unused + 2
  {
    Started(p, l);
  }

  lemma PairSpawns(start: Proto, s: nat, t: nat) returns (q: Proto)
    requires s in start.starts && t in start.starts && s != t
    ensures Leads(start, q) && |q.ticks| >= 2
  {
    LaunchedTwice(start, s, t);
    TwoSpawns(start, s, t);
    q := Launched(Launched(start, s), t);
  }

  /** From a start that finds another loop, spawning alone leads to two tick loops. */
  lemma TwoLoops(p: Proto, l: Label) returns (q: Proto)
    requires Safe(p) && InUse(p) && Enabled(p, l) && Starts(p, l) && !Alone(p)
    ensures Leads(Next(p, l), q) && |q.ticks| >= 2
  {
    if k :| k in p.ticks {
      StartedTick(p, l, k);
      q := OneSpawn(Next(p, l), p.unused + 2, k);
    } else {
      assert p.starts != map[];
      var t :| t in p.starts;
      StartedPair(p, l, t);
      q := PairSpawns(Next(p, l), p.unused + 2, t);
    }
  }

  lemma {:induction false} NoStartsIsAlone(p: Proto, run: seq<Label>)
    requires NoStarts(run) && After(p, run).Some?
    ensures AloneAfter(p, run) == After(p, run) && QuietAfter(p, run) == After(p, run)
  {
    if run != [] {
      NoStartsIsAlone(p, run[..|run| - 1]);
    }
  }

  ghost predicate StaysSingle(p: Proto) {
    forall run :: NoStarts(run) && After(p, run).Some? ==> |After(p, run).value.ticks| <= 1
  }

  /** Where at most one loop lives, a start keeps it so in every continuation without another start
      exactly when it finds no loop alive or about to be launched. */
  lemma StartAloneIff(p: Proto, l: Label)
    requires Safe(p) && InUse(p) && OneLoop(p) && Enabled(p, l) && Starts(p, l)
    ensures StaysSingle(Next(p, l)) <==> Alone(p)
  {
    if Alone(p) {
      NextOneLoop(p, l);
      forall run | NoStarts(run) && After(Next(p, l), run).Some? ensures |After(Next(p, l), run).value.ticks| <= 1 {
        NoStartsIsAlone(Next(p, l), run);
        OneTickLoop(Next(p, l), run);
      }
    } else {
      var q := TwoLoops(p, l);
      var run := LeadingRun(Next(p, l), q, false);
      assert |After(Next(p, l), run).value.ticks| > 1;
    }
  }

  // ---------- frames out of order ----------

  function TurnsToSend(pc: TickPc): nat {
    match pc
    case Spawned => 4
    case Select(_) => 3
    case Check(_) => 2
    case Read(_) => 1
    case Send(_, _) => 0
    case Lost(_) => 0
  }

  /** p and q differ at most in the tick loop k, and in the counter. */
  ghost predicate OnlyTick(p: Proto, q: Proto, k: nat, pc: TickPc, sequence: nat) {
    q.sh == p.sh && q.logs == p.logs && q.ticks == p.ticks[k := pc] && q.sequence == sequence
  }

  lemma Rewrite(ticks: map<nat, TickPc>, k: nat, a: TickPc, b: TickPc)
    ensures ticks[k := a][k := b] == ticks[k := b]
  {
  }

  /** A tick loop that can still send gets to the point of sending the next frame. */
  lemma {:induction false} ToSend(start: Proto, p: Proto, k: nat) returns (q: Proto, pc: TickPc)
    requires Leads(start, p) && k in p.ticks && !p.ticks[k].Lost? && !p.ticks[k].Send? && Live(p.sh)
    ensures Leads(start, q) && pc.Send? && pc.n == p.sequence + 1 && OnlyTick(p, q, k, pc, p.sequence + 1)
    decreases TurnsToSend(p.ticks[k])
  {
    Turns(start, p, k);
    q, pc := Turned(p, k), TurnOf(p, k);
    if !pc.Send? {
      q, pc := ToSend(start, q, k);
      Rewrite(p.ticks, k, TurnOf(p, k), pc);
    }
  }

  /** Of two loops about to send, the one with the later number sends first. */
  lemma BothSend(start: Proto, p: Proto, i: nat, k: nat, c: nat) returns (q: Proto)
    requires Leads(start, p) && i != k && i in p.ticks && k in p.ticks && p.ticks[i].Send? && p.ticks[k].Send?
    requires p.sh.clients == [c] && c !in p.logs
    ensures Leads(start, q) && c in q.logs && q.logs[c] == [p.ticks[k].n, p.ticks[i].n]
  {
    Sends(start, p, k, c);
    q := AfterSend(p, k, c);
    Sends(start, q, i, c);
    q := AfterSend(q, i, c);
  }

  /** An old and a new loop, and a client of the new one: the new loop overtakes the old. */
  lemma Overtakes(start: Proto, p: Proto, i: nat, k: nat, c: nat) returns (q: Proto)
    requires Leads(start, p) && i != k && i in p.ticks && k in p.ticks && p.ticks[i].Send? && p.ticks[k].Spawned?
    requires Live(p.sh) && p.sh.clients == [c] && c !in p.logs && p.ticks[i].n <= p.sequence
    ensures Leads(start, q) && c in q.logs && q.logs[c] == [p.sequence + 1, p.ticks[i].n]
  {
    var pc;
    q, pc := ToSend(start, p, k);
    q := BothSend(start, q, i, k, c);
  }

  lemma Crosses(start: Proto, p: Proto, i: nat, k: nat, c: nat) returns (q: Proto)
    requires Leads(start, p) && i != k && i in p.ticks && k in p.ticks && !p.ticks[i].Lost? && p.ticks[k].Spawned?
    requires Live(p.sh) && p.sh.clients == [c] && c !in p.logs && (p.ticks[i].Send? ==> p.ticks[i].n == p.sequence)
    ensures Leads(start, q) && c in q.logs && |q.logs[c]| == 2 && q.logs[c][0] == q.logs[c][1] + 1
    ensures !p.ticks[i].Send? ==> q.logs[c] == [p.sequence + 2, p.sequence + 1]
  {
    if p.ticks[i].Send? {
      q := Overtakes(start, p, i, k, c);
    } else {
      var pc;
      q, pc := ToSend(start, p, i);
      q := Overtakes(start, q, i, k, c);
    }
  }

  /** After a start that found the loop of an earlier one, or a starting call: the new loop K and
      its accept loop a are launched, and an old loop i can still send. */
  ghost predicate OldAndNew(p: Proto, i: nat, k: nat, a: nat) {
    i != k && i in p.ticks && k in p.ticks && !p.ticks[i].Lost? && p.ticks[k].Spawned?
      && (p.ticks[i].Send? ==> p.ticks[i].n == p.sequence)
    && a in p.accepts && p.accepts[a].Accepting? && p.accepts[a].ln !in p.closedListeners && Live(p.sh)
      && p.sh.clients == []
    && forall c :: c in p.logs ==> c < p.unused
  }

  /** A state with a starting call s for an open listener, a live bridge and no client. */
  ghost predicate Ready(p: Proto, s: nat) {
    s in p.starts && p.starts[s] !in p.closedListeners && Live(p.sh) && p.sh.clients == []
    && forall c :: c in p.logs ==> c < p.unused
  }

  lemma NewLoopJoins(start: Proto, s: nat, k: nat)
    requires Ready(start, s)
    requires k in start.ticks && k < start.unused && !start.ticks[k].Lost?
      && (start.ticks[k].Send? ==> start.ticks[k].n == start.sequence)
    ensures OldAndNew(Launched(start, s), k, start.unused + 1, start.unused)
  {
  }

  lemma TwoLoopsJoin(start: Proto, s: nat, t: nat)
    requires Ready(start, s) && t in start.starts && s != t
    ensures s in Launched(start, t).starts
    ensures OldAndNew(Launched(Launched(start, t), s), start.unused + 1, start.unused + 3, start.unused + 2)
  {
    var q := Launched(start, t);
    assert s in q.starts && q.starts[s] == start.starts[s] && q.unused == start.unused + 2;
    assert q.ticks[start.unused + 1] == Spawned;
    NewLoopJoins(q, s, start.unused + 1);
  }

  lemma ClientJoins(p: Proto, i: nat, k: nat, a: nat)
    requires OldAndNew(p, i, k, a)
    ensures var q := Joined(Arrived(p, a), a);
      q.ticks == p.ticks && q.sequence == p.sequence && Live(q.sh) && q.sh.clients == [p.unused] && p.unused !in q.logs
  {
  }

  lemma ClientComes(start: Proto, p: Proto, i: nat, k: nat, a: nat) returns (q: Proto)
    requires Leads(start, p) && OldAndNew(p, i, k, a)
    ensures Leads(start, q) && q.ticks == p.ticks && q.sequence == p.sequence
    ensures Live(q.sh) && q.sh.clients == [p.unused] && p.unused !in q.logs
  {
    JoinsAfter(start, p, a);
    ClientJoins(p, i, k, a);
    q := Joined(Arrived(p, a), a);
  }

  lemma DisorderFollows(start: Proto, p: Proto, i: nat, k: nat, a: nat) returns (q: Proto)
    requires Leads(start, p) && OldAndNew(p, i, k, a)
    ensures Leads(start, q) && p.unused in q.logs && |q.logs[p.unused]| == 2
      && q.logs[p.unused][0] == q.logs[p.unused][1] + 1
    ensures !p.ticks[i].Send? ==> q.logs[p.unused] == [p.sequence + 2, p.sequence + 1]
  {
    q := ClientComes(start, p, i, k, a);
    q := Crosses(start, q, i, k, p.unused);
  }

  lemma TwoLaunched(p: Proto, s: nat, t: nat)
    requires s in p.starts && t in p.starts && s != t
    ensures s in Launched(p, t).starts
    ensures var q := Launched(Launched(p, t), s);
      q.sequence == p.sequence && p.unused + 1 in q.ticks && q.ticks[p.unused + 1] == Spawned
  {
    var q := Launched(p, t);
    assert s in q.starts && q.unused == p.unused + 2 && q.ticks[p.unused + 1] == Spawned;
  }

  lemma LaunchBoth(start: Proto, s: nat, t: nat) returns (p: Proto)
    requires Ready(start, s) && t in start.starts && s != t
    ensures Leads(start, p) && OldAndNew(p, start.unused + 1, start.unused + 3, start.unused + 2)
    ensures p.sequence == start.sequence && p.ticks[start.unused + 1] == Spawned
  {
    TwoSpawns(start, t, s);
    TwoLoopsJoin(start, s, t);
    TwoLaunched(start, s, t);
    p := Launched(Launched(start, t), s);
  }

  lemma LaunchOne(start: Proto, s: nat, k: nat) returns (p: Proto)
    requires Ready(start, s)
    requires k in start.ticks && k < start.unused && !start.ticks[k].Lost?
      && (start.ticks[k].Send? ==> start.ticks[k].n == start.sequence)
    ensures Leads(start, p) && OldAndNew(p, k, start.unused + 1, start.unused)
  {
    LeadsNowhere(start, false);
    Launches(start, start, s);
    NewLoopJoins(start, s, k);
    p := Launched(start, s);
  }

  lemma LogsBelow(p: Proto)
    requires Orderly(p)
    ensures forall c :: c in p.logs ==> c < p.unused
    ensures forall k :: k in p.ticks ==> k < p.unused && (p.ticks[k].Send? ==> p.ticks[k].n == p.sequence)
  {
  }

  lemma StartedReady(p: Proto, l: Label)
    requires Orderly(p) && InUse(p) && Enabled(p, l) && Starts(p, l)
    ensures Ready(Next(p, l), p.unused + 2) && Next(p, l).sequence == p.sequence
    ensures forall t :: t in p.starts ==> t in Next(p, l).starts && t < p.unused
    ensures forall k :: k in p.ticks ==>
      k < Next(p, l).unused && k in Next(p, l).ticks && Next(p, l).ticks[k] == p.ticks[k]
        && (p.ticks[k].Send? ==> p.ticks[k].n == p.sequence)
  {
    Started(p, l);
    LogsBelow(p);
  }

  lemma PendingFollows(p: Proto, l: Label, t: nat) returns (q: Proto, i: nat, k: nat, a: nat)
    requires Orderly(p) && InUse(p) && Enabled(p, l) && Starts(p, l) && t in p.starts
    ensures Leads(Next(p, l), q) && OldAndNew(q, i, k, a) && q.sequence == p.sequence && !q.ticks[i].Send?
  {
    StartedReady(p, l);
    var start := Next(p, l);
    i, k, a := start.unused + 1, start.unused + 3, start.unused + 2;
    q := LaunchBoth(start, p.unused + 2, t);
  }

  lemma LoopFollows(p: Proto, l: Label, i: nat) returns (q: Proto, k: nat, a: nat)
    requires Orderly(p) && InUse(p) && Enabled(p, l) && Starts(p, l) && i in p.ticks && !p.ticks[i].Lost?
    ensures Leads(Next(p, l), q) && OldAndNew(q, i, k, a)
  {
    StartedReady(p, l);
    k, a := Next(p, l).unused + 1, Next(p, l).unused;
    q := LaunchOne(Next(p, l), p.unused + 2, i);
  }

  /** After a start that finds a loop which can still send, spawning leads to an old and a new one. */
  lemma BothFollow(p: Proto, l: Label) returns (q: Proto, i: nat, k: nat, a: nat)
    requires Orderly(p) && InUse(p) && Enabled(p, l) && Starts(p, l) && !Quiet(p)
    ensures Leads(Next(p, l), q) && OldAndNew(q, i, k, a)
    ensures p.starts != map[] ==> q.sequence == p.sequence && !q.ticks[i].Send?
  {
    if t :| t in p.starts {
      q, i, k, a := PendingFollows(p, l, t);
    } else {
      assert p.starts == map[];
      i :| i in p.ticks && !p.ticks[i].Lost?;
      q, k, a := LoopFollows(p, l, i);
    }
  }

  /** From a start that finds a loop which can still send, a connection gets a frame before an
      earlier one. */
  lemma FramesCross(p: Proto, l: Label) returns (q: Proto, c: nat)
    requires Orderly(p) && InUse(p) && Enabled(p, l) && Starts(p, l) && !Quiet(p)
    ensures Leads(Next(p, l), q) && c in q.logs && |q.logs[c]| == 2 && q.logs[c][0] == q.logs[c][1] + 1
    ensures p.starts != map[] ==> q.logs[c] == [p.sequence + 2, p.sequence + 1]
  {
    var r, i, k, a := BothFollow(p, l);
    c := r.unused;
    q := DisorderFollows(Next(p, l), r, i, k, a);
  }

  ghost predicate StaysInOrder(p: Proto) {
    forall run :: NoStarts(run) && After(p, run).Some? ==> InOrder(After(p, run).value)
  }

  lemma QuietStartKeepsOrder(p: Proto, l: Label)
    requires Orderly(p) && Enabled(p, l) && Starts(p, l) && Quiet(p)
    ensures StaysInOrder(Next(p, l))
  {
    NextSafe(p, l);
    NextOneSender(p, l);
    NextLogsAgree(p, l);
    forall run | NoStarts(run) && After(Next(p, l), run).Some? ensures InOrder(After(Next(p, l), run).value) {
      NoStartsIsAlone(Next(p, l), run);
      OrderIsKept(Next(p, l), run);
    }
  }

  /** Where frames are in order, a start keeps them so in every continuation without another start
      exactly when it finds no loop that can still send and none about to be launched. */
  lemma StartQuietIff(p: Proto, l: Label)
    requires Orderly(p) && InUse(p) && Enabled(p, l) && Starts(p, l)
    ensures StaysInOrder(Next(p, l)) <==> Quiet(p)
  {
    if Quiet(p) {
      QuietStartKeepsOrder(p, l);
    } else {
      var q, c := FramesCross(p, l);
      var run := LeadingRun(Next(p, l), q, false);
      assert !Increasing(q.logs[c]);
    }
  }
}

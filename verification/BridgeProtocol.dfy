/** The bridge service as a transition system: one step for each critical section or other
    shared action of the control calls, the accept loop, the tick loop and the watchers. */
module BridgeProtocol {
  import opened Wrappers
  import opened BridgeState

  /** A started call that has left its critical section, by the listener it will serve. */
  type StartPc = nat

  datatype StopPc =
    | CloseListener(ch: Option<nat>, ln: Option<nat>)
    | CloseChannel(ch: Option<nat>, ln: Option<nat>)
    | CloseConns(ch: Option<nat>, ln: Option<nat>)
    | Waiting(ch: Option<nat>, ln: Option<nat>)

  datatype AcceptPc = Accepting(ln: nat) | Accepted(ln: nat, conn: nat)

  /** `ch` is the stop channel the loop captured when it first ran, nil if there was none. */
  datatype TickPc =
    | Spawned
    | Select(ch: Option<nat>)
    | Check(ch: Option<nat>)
    | Lost(ch: Option<nat>)
    | Read(ch: Option<nat>)
    | Send(ch: Option<nat>, n: nat)

  /** `closes` counts how often each stop channel was closed, `removed` holds the connections
      that have left the list, `logs` what each connection was sent, and `unused` is the next
      unused number. */
  datatype Proto = Proto(
    sh: Shared, sequence: nat, wg: int,
    connects: nat, selfStops: nat,
    starts: map<nat, StartPc>, stops: map<nat, StopPc>,
    accepts: map<nat, AcceptPc>, ticks: map<nat, TickPc>,
    closedListeners: set<nat>, closes: multiset<nat>,
    removed: set<nat>, logs: map<nat, seq<nat>>,
    encodeFailed: bool, unused: nat)

  datatype Label =
    | ConnectBegins | ConnectEnds(ok: bool) | Disconnects
    | StartBegins(port: int, listens: bool) | StartSpawns(t: nat)
    | StopBegins(self: bool)
    | ClosesListener(t: nat) | ClosesChannel(t: nat) | ClosesConns(t: nat) | StopReturns(t: nat)
    | Accepts(a: nat) | Appends(a: nat) | AcceptSeesClosed(a: nat) | AcceptFails(a: nat)
    | TickCaptures(k: nat) | TickStops(k: nat) | TickFires(k: nat)
    | TickAlive(k: nat) | TickDead(k: nat) | TickQuits(k: nat)
    | TickReads(k: nat, encodes: bool) | TickReadFails(k: nat) | TickSends(k: nat, failed: set<nat>)
    | Watch(conn: nat)

  predicate IsClosed(p: Proto, ch: Option<nat>) {
    ch.Some? && ch.value in p.closes
  }

  predicate Enabled(p: Proto, l: Label) {
    match l
    case ConnectBegins => true
    case ConnectEnds(_) => p.connects > 0
    case Disconnects => true
    case StartBegins(_, _) => true
    case StartSpawns(t) => t in p.starts
    case StopBegins(self) => self ==> p.selfStops > 0
    case ClosesListener(t) => t in p.stops && p.stops[t].CloseListener?
    case ClosesChannel(t) => t in p.stops && p.stops[t].CloseChannel?
    case ClosesConns(t) => t in p.stops && p.stops[t].CloseConns?
    case StopReturns(t) => t in p.stops && p.stops[t].Waiting? && p.wg == 0
    case Accepts(a) => a in p.accepts && p.accepts[a].Accepting? && p.accepts[a].ln !in p.closedListeners
    case Appends(a) => a in p.accepts && p.accepts[a].Accepted?
    case AcceptSeesClosed(a) => a in p.accepts && p.accepts[a].Accepting? && p.accepts[a].ln in p.closedListeners
    case AcceptFails(a) => a in p.accepts && p.accepts[a].Accepting?
    case TickCaptures(k) => k in p.ticks && p.ticks[k].Spawned?
    case TickStops(k) => k in p.ticks && p.ticks[k].Select? && IsClosed(p, p.ticks[k].ch)
    case TickFires(k) => k in p.ticks && p.ticks[k].Select?
    case TickAlive(k) => k in p.ticks && p.ticks[k].Check?
    case TickDead(k) => k in p.ticks && p.ticks[k].Check?
    case TickQuits(k) => k in p.ticks && p.ticks[k].Lost?
    case TickReads(k, _) => k in p.ticks && p.ticks[k].Read?
    case TickReadFails(k) => k in p.ticks && p.ticks[k].Read?
    case TickSends(k, _) => k in p.ticks && p.ticks[k].Send?
    case Watch(conn) => conn < p.unused
  }

  function Log(p: Proto, conn: nat): seq<nat> {
    if conn in p.logs then p.logs[conn] else []
  }

  function Logged(logs: map<nat, seq<nat>>, clients: seq<nat>, failed: set<nat>, n: nat): map<nat, seq<nat>> {
    map c | c in logs.Keys + Elements(clients) ::
      (if c in logs then logs[c] else []) + (if c in clients && c !in failed then [n] else [])
  }

  function Elements(s: seq<nat>): set<nat> {
    set c | c in s
  }

  // ---------- the steps, component by component ----------

  /** A start that goes through, from its critical section. */
  predicate Starts(p: Proto, l: Label) {
    l.StartBegins? && StartOutcome(p.sh, l.port, l.listens) == Started
  }

  /** A stop that finds the bridge running. */
  predicate Stops(p: Proto, l: Label) {
    l.StopBegins? && p.sh.running
  }

  function NextShared(p: Proto, l: Label): Shared
    requires Enabled(p, l)
  {
    match l
    case ConnectBegins => AfterDrop(p.sh)
    case ConnectEnds(ok) => if ok then AfterConnected(p.sh, p.unused) else p.sh
    case Disconnects => AfterDrop(p.sh)
    case StartBegins(_, _) => if Starts(p, l) then AfterStart(p.sh, p.unused, p.unused + 1) else p.sh
    case StopBegins(_) => AfterStop(p.sh)
    case Appends(a) => p.sh.(clients := p.sh.clients + [p.accepts[a].conn])
    case TickDead(_) => p.sh.(opcConnected := false)
    case TickSends(_, failed) => p.sh.(clients := Surviving(p.sh.clients, failed))
    case Watch(conn) => p.sh.(clients := WithoutConn(p.sh.clients, conn))
    case _ => p.sh
  }

  function NextStops(p: Proto, l: Label): map<nat, StopPc>
    requires Enabled(p, l)
  {
    match l
    case StopBegins(_) => if p.sh.running then p.stops[p.unused := CloseListener(p.sh.stop, p.sh.listener)] else p.stops
    case ClosesListener(t) => p.stops[t := CloseChannel(p.stops[t].ch, p.stops[t].ln)]
    case ClosesChannel(t) => p.stops[t := CloseConns(p.stops[t].ch, p.stops[t].ln)]
    case ClosesConns(t) => p.stops[t := Waiting(p.stops[t].ch, p.stops[t].ln)]
    case StopReturns(t) => p.stops - {t}
    case _ => p.stops
  }

  function NextStarts(p: Proto, l: Label): map<nat, StartPc>
    requires Enabled(p, l)
  {
    match l
    case StartBegins(_, _) => if Starts(p, l) then p.starts[p.unused + 2 := p.unused] else p.starts
    case StartSpawns(t) => p.starts - {t}
    case _ => p.starts
  }

  function NextAccepts(p: Proto, l: Label): map<nat, AcceptPc>
    requires Enabled(p, l)
  {
    match l
    case StartSpawns(t) => p.accepts[p.unused := Accepting(p.starts[t])]
    case Accepts(a) => p.accepts[a := Accepted(p.accepts[a].ln, p.unused)]
    case Appends(a) => p.accepts[a := Accepting(p.accepts[a].ln)]
    case AcceptSeesClosed(a) => p.accepts - {a}
    case AcceptFails(a) => p.accepts - {a}
    case _ => p.accepts
  }

  function NextTicks(p: Proto, l: Label): map<nat, TickPc>
    requires Enabled(p, l)
  {
    match l
    case StartSpawns(_) => p.ticks[p.unused + 1 := Spawned]
    case TickCaptures(k) => p.ticks[k := Select(p.sh.stop)]
    case TickStops(k) => p.ticks - {k}
    case TickFires(k) =>
      if p.sh.running && p.sh.opcConnected && p.sh.client.Some? then p.ticks[k := Check(p.ticks[k].ch)] else p.ticks
    case TickAlive(k) => p.ticks[k := Read(p.ticks[k].ch)]
    case TickDead(k) => p.ticks[k := Lost(p.ticks[k].ch)]
    case TickQuits(k) => p.ticks - {k}
    case TickReads(k, encodes) =>
      p.ticks[k := if encodes then Send(p.ticks[k].ch, p.sequence + 1) else Select(p.ticks[k].ch)]
    case TickReadFails(k) => p.ticks[k := Select(p.ticks[k].ch)]
    case TickSends(k, _) => p.ticks[k := Select(p.ticks[k].ch)]
    case _ => p.ticks
  }

  /** A started call adds 2 to the wait group with its two loops; a loop that exits takes 1. */
  function NextWait(p: Proto, l: Label): int {
    match l
    case StartSpawns(_) => p.wg + 2
    case AcceptSeesClosed(_) => p.wg - 1
    case AcceptFails(_) => p.wg - 1
    case TickStops(_) => p.wg - 1
    case TickQuits(_) => p.wg - 1
    case _ => p.wg
  }

  function NextCloses(p: Proto, l: Label): multiset<nat>
    requires Enabled(p, l)
  {
    if l.ClosesChannel? && p.stops[l.t].ch.Some? then p.closes + multiset{p.stops[l.t].ch.value} else p.closes
  }

  function NextClosedListeners(p: Proto, l: Label): set<nat>
    requires Enabled(p, l)
  {
    if l.ClosesListener? && p.stops[l.t].ln.Some? then p.closedListeners + {p.stops[l.t].ln.value}
    else p.closedListeners
  }

  /** The connections that leave the list: at a start or stop all of them. */
  function Leaving(p: Proto, l: Label): set<nat> {
    if Starts(p, l) || Stops(p, l) then Elements(p.sh.clients)
    else match l
      case TickSends(_, failed) => Elements(p.sh.clients) * failed
      case Watch(conn) => Elements(p.sh.clients) * {conn}
      case _ => {}
  }

  function NextLogs(p: Proto, l: Label): map<nat, seq<nat>>
    requires Enabled(p, l)
  {
    if l.TickSends? then Logged(p.logs, p.sh.clients, l.failed, p.ticks[l.k].n) else p.logs
  }

  /** Connect's first section leads to its last unless the bridge runs. */
  function NextConnects(p: Proto, l: Label): nat
    requires Enabled(p, l)
  {
    match l
    case ConnectBegins => if p.sh.running then p.connects else p.connects + 1
    case ConnectEnds(_) => p.connects - 1
    case _ => p.connects
  }

  function NextSelfStops(p: Proto, l: Label): nat
    requires Enabled(p, l)
  {
    match l
    case TickQuits(_) => p.selfStops + 1
    case StopBegins(self) => if self then p.selfStops - 1 else p.selfStops
    case _ => p.selfStops
  }

  /** How many numbers a step takes into use. */
  function Used(p: Proto, l: Label): nat {
    match l
    case ConnectEnds(ok) => if ok then 1 else 0
    case StartBegins(_, _) => if Starts(p, l) then 3 else 0
    case StartSpawns(_) => 2
    case StopBegins(_) => if p.sh.running then 1 else 0
    case Accepts(_) => 1
    case _ => 0
  }

  function Next(p: Proto, l: Label): Proto
    requires Enabled(p, l)
  {
    Proto(NextShared(p, l), if l.TickReads? then p.sequence + 1 else p.sequence, NextWait(p, l),
          NextConnects(p, l), NextSelfStops(p, l), NextStarts(p, l), NextStops(p, l), NextAccepts(p, l),
          NextTicks(p, l),
          NextClosedListeners(p, l), NextCloses(p, l), p.removed + Leaving(p, l), NextLogs(p, l),
          p.encodeFailed || (l.TickReads? && !l.encodes), p.unused + Used(p, l))
  }

  const Initial := Proto(
    Shared(None, false, false, None, None, []), 0, 0, 0, 0, map[], map[], map[], map[], {}, multiset{}, {}, map[],
    false, 0)

  // ---------- runs ----------

  /** Where a sequence of steps leads, if each is enabled in turn. */
  function After(p: Proto, run: seq<Label>): Option<Proto> {
    if run == [] then Some(p)
    else
      var m := After(p, run[..|run| - 1]);
      if m.Some? && Enabled(m.value, run[|run| - 1]) then Some(Next(m.value, run[|run| - 1])) else None
  }

  lemma AfterSnoc(p: Proto, run: seq<Label>, l: Label)
    ensures After(p, run + [l])
         == var m := After(p, run); if m.Some? && Enabled(m.value, l) then Some(Next(m.value, l)) else None
  {
    assert (run + [l])[..|run|] == run;
  }

  // ---------- what holds in every interleaving ----------

  ghost predicate FlagsAgree(sh: Shared) {
    (sh.running <==> sh.listener.Some?) && (sh.running <==> sh.stop.Some?)
    && (sh.running ==> sh.client.Some?) && (sh.opcConnected ==> sh.client.Some?)
  }

  /** A stopping call that has yet to close this channel. */
  predicate Owes(pc: StopPc, c: nat) {
    (pc.CloseListener? || pc.CloseChannel?) && pc.ch == Some(c)
  }

  /** Every stop channel is with the service, with one stopping call, or closed once. */
  ghost predicate ChannelsAgree(stop: Option<nat>, stops: map<nat, StopPc>, closes: multiset<nat>, unused: nat) {
    (stop.Some? ==> stop.value < unused && stop.value !in closes
                    && forall t :: t in stops ==> !Owes(stops[t], stop.value))
    && (forall t :: t in stops ==> t < unused && (stops[t].ch.Some? ==> stops[t].ch.value < unused))
    && (forall t, c :: t in stops && Owes(stops[t], c) ==> c !in closes)
    && (forall t, u, c :: t in stops && u in stops && Owes(stops[t], c) && Owes(stops[u], c) ==> t == u)
    && (forall c :: c in closes ==> closes[c] == 1 && c < unused)
  }

  predicate Brings(accepts: map<nat, AcceptPc>, a: nat, c: nat) {
    a in accepts && accepts[a].Accepted? && accepts[a].conn == c
  }

  /** The list has no repetition and holds no connection that has left it or is yet to come. */
  ghost predicate ConnsAgree(clients: seq<nat>, accepts: map<nat, AcceptPc>, removed: set<nat>, unused: nat) {
    NoDup(clients)
    && (forall c :: c in clients ==> c < unused && c !in removed)
    && (forall c :: c in removed ==> c < unused)
    && (forall a: nat, c: nat :: Brings(accepts, a, c) ==> c < unused && c !in removed && c !in clients)
    && (forall a: nat, b: nat, c: nat :: Brings(accepts, a, c) && Brings(accepts, b, c) ==> a == b)
    && (forall a :: a in accepts ==> a < unused)
  }

  ghost predicate LoopsCounted(wg: int, accepts: map<nat, AcceptPc>, ticks: map<nat, TickPc>, unused: nat) {
    wg == |accepts| + |ticks|
    && (forall a :: a in accepts ==> a < unused) && (forall k :: k in ticks ==> k < unused)
  }

  ghost predicate Safe(p: Proto) {
    FlagsAgree(p.sh)
    && ChannelsAgree(p.sh.stop, p.stops, p.closes, p.unused)
    && ConnsAgree(p.sh.clients, p.accepts, p.removed, p.unused)
    && LoopsCounted(p.wg, p.accepts, p.ticks, p.unused)
  }

  lemma NextFlags(p: Proto, l: Label)
    requires FlagsAgree(p.sh) && Enabled(p, l)
    ensures FlagsAgree(NextShared(p, l))
  {
  }

  /** The steps of starting calls, and of stopping ones. */
  predicate OfStart(l: Label) {
    l.StartBegins? || l.StartSpawns?
  }

  predicate OfStop(l: Label) {
    l.StopBegins? || l.ClosesListener? || l.ClosesChannel? || l.ClosesConns? || l.StopReturns?
  }

  predicate OfAccept(l: Label) {
    l.Accepts? || l.Appends? || l.AcceptSeesClosed? || l.AcceptFails?
  }

  predicate OfTick(l: Label) {
    l.TickCaptures? || l.TickStops? || l.TickFires? || l.TickAlive? || l.TickDead? || l.TickQuits?
    || l.TickReads? || l.TickReadFails? || l.TickSends?
  }

  lemma StopChannels(p: Proto, l: Label)
    requires ChannelsAgree(p.sh.stop, p.stops, p.closes, p.unused) && Enabled(p, l) && l.StopBegins?
    ensures ChannelsAgree(NextShared(p, l).stop, NextStops(p, l), NextCloses(p, l), p.unused + Used(p, l))
  {
  }

  lemma CloseChannels(p: Proto, l: Label)
    requires ChannelsAgree(p.sh.stop, p.stops, p.closes, p.unused) && Enabled(p, l) && l.ClosesChannel?
    ensures ChannelsAgree(NextShared(p, l).stop, NextStops(p, l), NextCloses(p, l), p.unused + Used(p, l))
  {
    var pc := p.stops[l.t];
    if pc.ch.Some? {
      assert Owes(pc, pc.ch.value);
    }
    assert forall t, c :: t in NextStops(p, l) && Owes(NextStops(p, l)[t], c) ==> t != l.t && Owes(p.stops[t], c);
  }

  lemma StartChannels(p: Proto, l: Label)
    requires ChannelsAgree(p.sh.stop, p.stops, p.closes, p.unused) && Enabled(p, l) && OfStart(l)
    ensures ChannelsAgree(NextShared(p, l).stop, NextStops(p, l), NextCloses(p, l), p.unused + Used(p, l))
  {
  }

  /** Calls that owe no more than before do no harm. */
  lemma OwingLess(stop: Option<nat>, stops: map<nat, StopPc>, closes: multiset<nat>, unused: nat,
                  later: map<nat, StopPc>)
    requires ChannelsAgree(stop, stops, closes, unused)
    requires forall t :: t in later ==> t in stops && later[t].ch == stops[t].ch
    requires forall t :: t in later && (later[t].CloseListener? || later[t].CloseChannel?) ==>
      stops[t].CloseListener? || stops[t].CloseChannel?
    ensures ChannelsAgree(stop, later, closes, unused)
  {
    assert forall t, c :: t in later && Owes(later[t], c) ==> Owes(stops[t], c);
  }

  lemma StopStepChannels(p: Proto, l: Label)
    requires ChannelsAgree(p.sh.stop, p.stops, p.closes, p.unused) && Enabled(p, l) && OfStop(l) && !l.StopBegins?
      && !l.ClosesChannel?
    ensures ChannelsAgree(NextShared(p, l).stop, NextStops(p, l), NextCloses(p, l), p.unused + Used(p, l))
  {
    if l.ClosesListener? {
      OwingLess(p.sh.stop, p.stops, p.closes, p.unused, p.stops[l.t := CloseChannel(p.stops[l.t].ch, p.stops[l.t].ln)]);
    } else if l.ClosesConns? {
      OwingLess(p.sh.stop, p.stops, p.closes, p.unused, p.stops[l.t := Waiting(p.stops[l.t].ch, p.stops[l.t].ln)]);
    } else {
      OwingLess(p.sh.stop, p.stops, p.closes, p.unused, p.stops - {l.t});
    }
  }

  lemma OtherChannels(p: Proto, l: Label)
    requires ChannelsAgree(p.sh.stop, p.stops, p.closes, p.unused) && Enabled(p, l) && !OfStart(l) && !OfStop(l)
    ensures ChannelsAgree(NextShared(p, l).stop, NextStops(p, l), NextCloses(p, l), p.unused + Used(p, l))
  {
  }

  lemma NextChannels(p: Proto, l: Label)
    requires ChannelsAgree(p.sh.stop, p.stops, p.closes, p.unused) && Enabled(p, l)
    ensures ChannelsAgree(NextShared(p, l).stop, NextStops(p, l), NextCloses(p, l), p.unused + Used(p, l))
  {
    if OfStart(l) {
      StartChannels(p, l);
    } else if l.StopBegins? {
      StopChannels(p, l);
    } else if l.ClosesChannel? {
      CloseChannels(p, l);
    } else if OfStop(l) {
      StopStepChannels(p, l);
    } else {
      OtherChannels(p, l);
    }
  }

  /** The list after a step: what was there less what left, and at most one newly appended. */
  lemma NextClients(p: Proto, l: Label)
    requires NoDup(p.sh.clients) && Enabled(p, l)
    requires l.Appends? ==> p.accepts[l.a].conn !in p.sh.clients
    ensures NoDup(NextShared(p, l).clients)
    ensures forall c :: c in NextShared(p, l).clients
              <==> (c in p.sh.clients && c !in Leaving(p, l)) || (l.Appends? && c == p.accepts[l.a].conn)
    ensures forall c :: c in Leaving(p, l) ==> c in p.sh.clients
  {
    match l
    case TickSends(k, failed) => SentClients(p, l);
    case Watch(conn) => WithoutConnRemoves(p.sh.clients, conn);
    case _ =>
  }

  lemma SentClients(p: Proto, l: Label)
    requires NoDup(p.sh.clients) && Enabled(p, l) && l.TickSends?
    ensures NoDup(NextShared(p, l).clients)
    ensures forall c :: c in NextShared(p, l).clients <==> c in p.sh.clients && c !in Leaving(p, l)
    ensures forall c :: c in Leaving(p, l) ==> c in p.sh.clients
  {
    SurvivingFilters(p.sh.clients, l.failed);
  }

  lemma NextConns(p: Proto, l: Label)
    requires ConnsAgree(p.sh.clients, p.accepts, p.removed, p.unused) && Enabled(p, l)
    ensures ConnsAgree(NextShared(p, l).clients, NextAccepts(p, l), p.removed + Leaving(p, l), p.unused + Used(p, l))
  {
    if l.Appends? {
      assert Brings(p.accepts, l.a, p.accepts[l.a].conn);
    }
    NextClients(p, l);
    var accepts := NextAccepts(p, l);
    forall a: nat, c: nat | Brings(accepts, a, c)
      ensures Brings(p.accepts, a, c) || (l.Accepts? && a == l.a && c == p.unused)
    {
    }
  }

  lemma NextAcceptsCounted(p: Proto, l: Label)
    requires Enabled(p, l) && forall a :: a in p.accepts ==> a < p.unused
    ensures |NextAccepts(p, l)|
         == |p.accepts| + if l.StartSpawns? then 1 else if l.AcceptSeesClosed? || l.AcceptFails? then -1 else 0
    ensures forall a :: a in NextAccepts(p, l) ==> a < p.unused + Used(p, l)
  {
  }

  lemma NextTicksCounted(p: Proto, l: Label)
    requires Enabled(p, l) && forall k :: k in p.ticks ==> k < p.unused
    ensures |NextTicks(p, l)|
         == |p.ticks| + if l.StartSpawns? then 1 else if l.TickStops? || l.TickQuits? then -1 else 0
    ensures forall k :: k in NextTicks(p, l) ==> k < p.unused + Used(p, l)
  {
  }

  lemma NextCounted(p: Proto, l: Label)
    requires LoopsCounted(p.wg, p.accepts, p.ticks, p.unused) && Enabled(p, l)
    ensures LoopsCounted(NextWait(p, l), NextAccepts(p, l), NextTicks(p, l), p.unused + Used(p, l))
  {
    NextAcceptsCounted(p, l);
    NextTicksCounted(p, l);
  }

  lemma NextSafe(p: Proto, l: Label)
    requires Safe(p) && Enabled(p, l)
    ensures Safe(Next(p, l))
  {
    NextFlags(p, l);
    NextChannels(p, l);
    NextConns(p, l);
    NextCounted(p, l);
  }

  /** In every interleaving the flags agree with what they stand for, every stop channel is
      closed at most once, no connection is listed twice or again after it has left, and the
      wait group counts the live loops. */
  lemma {:induction false} EveryRunIsSafe(p: Proto, run: seq<Label>)
    requires Safe(p) && After(p, run).Some?
    ensures Safe(After(p, run).value) && p.removed <= After(p, run).value.removed
    ensures forall c :: After(p, run).value.closes[c] <= 1
  {
    if run != [] {
      EveryRunIsSafe(p, run[..|run| - 1]);
      NextSafe(After(p, run[..|run| - 1]).value, run[|run| - 1]);
    }
  }

  lemma InitiallySafe()
    ensures Safe(Initial)
  {
  }
}

/** Which starts keep the tick loops apart: at most one tick loop lives if each start that goes
    through finds none, and frames keep their order if each finds none that can still send. */
module BridgeLoops {
  import opened Wrappers
  import opened BridgeState
  import opened BridgeProtocol
  import opened BridgeSerial

  // ---------- one tick loop ----------

  /** No loop lives or is about to be launched. */
  predicate Alone(p: Proto) {
    p.starts == map[] && p.ticks == map[]
  }

  /** As After, for runs in which each start that goes through finds no other loop. */
  function AloneAfter(p: Proto, run: seq<Label>): Option<Proto> {
    if run == [] then Some(p)
    else
      var m := AloneAfter(p, run[..|run| - 1]);
      if m.Some? && Enabled(m.value, run[|run| - 1]) && (Starts(m.value, run[|run| - 1]) ==> Alone(m.value))
      then Some(Next(m.value, run[|run| - 1])) else None
  }

  /** At most one tick loop lives or is about to be launched. */
  ghost predicate OneLoop(p: Proto) {
    One(p.starts) && One(p.ticks) && (p.starts != map[] ==> p.ticks == map[])
  }

  lemma NextOneLoop(p: Proto, l: Label)
    requires OneLoop(p) && Enabled(p, l) && (Starts(p, l) ==> Alone(p))
    ensures OneLoop(Next(p, l))
  {
    if l.StartSpawns? {
      assert NextStarts(p, l) == map[] && p.ticks == map[];
    }
  }

  /** In every run in which each start that goes through finds no other tick loop, alive or about
      to be launched, at most one tick loop lives at any time. */
  lemma {:induction false} OneTickLoop(p: Proto, run: seq<Label>)
    requires OneLoop(p) && AloneAfter(p, run).Some?
    ensures OneLoop(AloneAfter(p, run).value) && |AloneAfter(p, run).value.ticks| <= 1
  {
    if run != [] {
      OneTickLoop(p, run[..|run| - 1]);
      NextOneLoop(AloneAfter(p, run[..|run| - 1]).value, run[|run| - 1]);
    }
    OneIsAtMostOne(AloneAfter(p, run).value.ticks);
  }

  // ---------- one loop that can send ----------

  /** No loop that can still send lives or is about to be launched: a loop that has lost its
      connection only has to quit. */
  ghost predicate Quiet(p: Proto) {
    p.starts == map[] && forall k :: k in p.ticks ==> p.ticks[k].Lost?
  }

  /** As After, for runs in which each start that goes through finds no loop that can still send. */
  ghost function QuietAfter(p: Proto, run: seq<Label>): Option<Proto> {
    if run == [] then Some(p)
    else
      var m := QuietAfter(p, run[..|run| - 1]);
      if m.Some? && Enabled(m.value, run[|run| - 1]) && (Starts(m.value, run[|run| - 1]) ==> Quiet(m.value))
      then Some(Next(m.value, run[|run| - 1])) else None
  }

  ghost predicate OneLive(ticks: map<nat, TickPc>) {
    forall x, y :: x in ticks && y in ticks && !ticks[x].Lost? && !ticks[y].Lost? ==> x == y
  }

  /** At most one loop that can send lives or is about to be launched. */
  ghost predicate OneSender(p: Proto) {
    One(p.starts) && OneLive(p.ticks) && (p.starts != map[] ==> forall k :: k in p.ticks ==> p.ticks[k].Lost?)
  }

  lemma NextOneSender(p: Proto, l: Label)
    requires OneSender(p) && Enabled(p, l) && (Starts(p, l) ==> Quiet(p))
    ensures OneSender(Next(p, l))
  {
    if l.StartSpawns? {
      assert NextStarts(p, l) == map[];
    }
  }

  // ---------- frames ----------

  ghost predicate Increasing(log: seq<nat>) {
    forall i, j :: 0 <= i < j < |log| ==> log[i] < log[j]
  }

  ghost predicate Consecutive(log: seq<nat>) {
    forall i :: 0 <= i < |log| - 1 ==> log[i + 1] == log[i] + 1
  }

  /** The number of the last frame that has gone out: one less while one is being sent. */
  ghost function LastSent(sequence: nat, ticks: map<nat, TickPc>): int {
    if exists k :: k in ticks && ticks[k].Send? then sequence - 1 else sequence
  }

  ghost predicate LogsOrdered(logs: map<nat, seq<nat>>, last: int) {
    forall c :: c in logs ==> Increasing(logs[c]) && forall i :: 0 <= i < |logs[c]| ==> logs[c][i] <= last
  }

  /** Every log belongs to a connection that is listed or has been. */
  ghost predicate LogsOwned(logs: map<nat, seq<nat>>, clients: seq<nat>, removed: set<nat>) {
    forall c :: c in logs ==> c in clients || c in removed
  }

  /** No gaps, and the logs of listed connections end with the last frame. */
  ghost predicate Unbroken(logs: map<nat, seq<nat>>, clients: seq<nat>, last: int) {
    forall c :: c in logs ==> Consecutive(logs[c]) && (c in clients && logs[c] != [] ==> logs[c][|logs[c]| - 1] == last)
  }

  ghost predicate LogsAgree(p: Proto) {
    (forall k :: k in p.ticks && p.ticks[k].Send? ==> p.ticks[k].n == p.sequence)
    && LogsOwned(p.logs, p.sh.clients, p.removed)
    && LogsOrdered(p.logs, LastSent(p.sequence, p.ticks))
    && (!p.encodeFailed ==> Unbroken(p.logs, p.sh.clients, LastSent(p.sequence, p.ticks)))
  }

  lemma LoggedOrdered(logs: map<nat, seq<nat>>, clients: seq<nat>, failed: set<nat>, n: nat)
    requires LogsOrdered(logs, n - 1)
    ensures LogsOrdered(Logged(logs, clients, failed, n), n)
  {
  }

  lemma LogGrows(log: seq<nat>, n: nat)
    requires Consecutive(log) && (log != [] ==> log[|log| - 1] == n - 1)
    ensures Consecutive(log + [n])
  {
  }

  lemma LoggedUnbroken(logs: map<nat, seq<nat>>, clients: seq<nat>, failed: set<nat>, n: nat)
    requires Unbroken(logs, clients, n - 1)
    ensures Unbroken(Logged(logs, clients, failed, n), Surviving(clients, failed), n)
  {
    SurvivingFilters(clients, failed);
    var t := Logged(logs, clients, failed, n);
    forall c | c in t
      ensures Consecutive(t[c]) && (c in Surviving(clients, failed) && t[c] != [] ==> t[c][|t[c]| - 1] == n)
    {
      var log := if c in logs then logs[c] else [];
      if c in clients && c !in failed {
        assert t[c] == log + [n];
        LogGrows(log, n);
      } else {
        assert t[c] == log;
      }
    }
  }

  lemma NextLastSent(p: Proto, l: Label)
    requires OneSender(p) && Enabled(p, l)
    ensures LastSent(p.sequence, p.ticks) <= LastSent(Next(p, l).sequence, NextTicks(p, l))
    ensures l.TickSends? ==>
      LastSent(p.sequence, p.ticks) == p.sequence - 1
      && LastSent(Next(p, l).sequence, NextTicks(p, l)) == p.sequence
    ensures !l.TickSends? && !(l.TickReads? && !l.encodes)
        ==> LastSent(Next(p, l).sequence, NextTicks(p, l)) == LastSent(p.sequence, p.ticks)
  {
    var t := NextTicks(p, l);
    if k :| k in p.ticks && p.ticks[k].Send? {
      if !l.TickSends? { assert k in t && t[k].Send?; }
    }
    if l.TickReads? && l.encodes { assert t[l.k].Send?; }
  }

  lemma NextOwned(p: Proto, l: Label)
    requires ConnsAgree(p.sh.clients, p.accepts, p.removed, p.unused) && LogsOwned(p.logs, p.sh.clients, p.removed)
    requires Enabled(p, l)
    ensures LogsOwned(NextLogs(p, l), NextShared(p, l).clients, p.removed + Leaving(p, l))
    ensures forall c :: c in NextShared(p, l).clients && c in p.logs ==> c in p.sh.clients
  {
    if l.Appends? { assert Brings(p.accepts, l.a, p.accepts[l.a].conn); }
    NextClients(p, l);
    assert forall c :: c in NextLogs(p, l) ==> c in p.logs || c in p.sh.clients;
  }

  lemma NextSendNumber(p: Proto, l: Label)
    requires OneSender(p) && Enabled(p, l)
    requires forall k :: k in p.ticks && p.ticks[k].Send? ==> p.ticks[k].n == p.sequence
    ensures forall k :: k in NextTicks(p, l) && NextTicks(p, l)[k].Send? ==>
      NextTicks(p, l)[k].n == if l.TickReads? then p.sequence + 1 else p.sequence
  {
  }

  lemma SentLogsAgree(p: Proto, l: Label)
    requires LogsAgree(p) && Enabled(p, l) && l.TickSends? && LastSent(p.sequence, p.ticks) == p.sequence - 1
    ensures LogsOrdered(NextLogs(p, l), p.sequence)
    ensures !p.encodeFailed ==> Unbroken(NextLogs(p, l), NextShared(p, l).clients, p.sequence)
  {
    LoggedOrdered(p.logs, p.sh.clients, l.failed, p.sequence);
    if !p.encodeFailed {
      LoggedUnbroken(p.logs, p.sh.clients, l.failed, p.sequence);
    }
  }

  lemma NextLogsAgree(p: Proto, l: Label)
    requires Safe(p) && OneSender(p) && LogsAgree(p) && Enabled(p, l)
    ensures LogsAgree(Next(p, l))
  {
    NextLastSent(p, l);
    NextOwned(p, l);
    NextSendNumber(p, l);
    if l.TickSends? {
      SentLogsAgree(p, l);
    }
  }

  /** All frames so far went out in order. */
  ghost predicate InOrder(p: Proto) {
    forall c :: c in p.logs ==> Increasing(p.logs[c])
  }

  ghost predicate Orderly(p: Proto) {
    Safe(p) && OneSender(p) && LogsAgree(p)
  }

  lemma {:induction false} OrderIsKept(p: Proto, run: seq<Label>)
    requires Orderly(p) && QuietAfter(p, run).Some?
    ensures Orderly(QuietAfter(p, run).value)
  {
    if run != [] {
      var m := run[..|run| - 1];
      OrderIsKept(p, m);
      NextSafe(QuietAfter(p, m).value, run[|run| - 1]);
      NextOneSender(QuietAfter(p, m).value, run[|run| - 1]);
      NextLogsAgree(QuietAfter(p, m).value, run[|run| - 1]);
    }
  }

  lemma InitiallyOrderly()
    ensures Orderly(Initial) && OneLoop(Initial)
  {
    InitiallySafe();
  }

  /** In every run in which each start that goes through finds no tick loop that can still send,
      every connection is sent strictly increasing sequence numbers, across any number of restarts
      of the bridge, and consecutive ones while encoding has never failed. */
  lemma FramesAreOrdered(run: seq<Label>)
    requires QuietAfter(Initial, run).Some?
    ensures var p := QuietAfter(Initial, run).value;
      Orderly(p) && InOrder(p) && (!p.encodeFailed ==> forall c :: c in p.logs ==> Consecutive(p.logs[c]))
      && forall c, i :: c in p.logs && 0 <= i < |p.logs[c]| ==> p.logs[c][i] <= p.sequence
  {
    InitiallyOrderly();
    OrderIsKept(Initial, run);
  }

  /** A log as it is on the wire: the counter has 64 bits. */
  function OnTheWire(log: seq<nat>): (w: seq<nat>)
    ensures |w| == |log| && forall i :: 0 <= i < |w| ==> w[i] == log[i] % U64_SIZE
  {
    seq(|log|, i requires 0 <= i < |log| => log[i] % U64_SIZE)
  }

  ghost predicate ConsecutiveOnTheWire(log: seq<nat>) {
    forall i :: 0 <= i < |log| - 1 ==> OnTheWire(log)[i + 1] == (OnTheWire(log)[i] + 1) % U64_SIZE
  }

  lemma WireIncreases(log: seq<nat>)
    requires Increasing(log) && forall i :: 0 <= i < |log| ==> log[i] < U64_SIZE
    ensures Increasing(OnTheWire(log))
  {
    assert OnTheWire(log) == log;
  }

  lemma WireFollows(log: seq<nat>)
    requires Consecutive(log)
    ensures ConsecutiveOnTheWire(log)
  {
    forall i | 0 <= i < |log| - 1 ensures OnTheWire(log)[i + 1] == (OnTheWire(log)[i] + 1) % U64_SIZE {
      NextOnTheWire(log[i]);
      assert log[i + 1] == log[i] + 1;
    }
  }

  lemma NextOnTheWire(n: nat)
    ensures (n + 1) % U64_SIZE == (n % U64_SIZE + 1) % U64_SIZE
  {
  }

  /** On the wire the numbers increase as long as the counter has not wrapped, and follow each
      other modulo 2^64 while encoding has never failed, also when it has. */
  lemma WireNumbers(run: seq<Label>, c: nat)
    requires QuietAfter(Initial, run).Some? && c in QuietAfter(Initial, run).value.logs
    ensures var p := QuietAfter(Initial, run).value;
      (p.sequence < U64_SIZE ==> Increasing(OnTheWire(p.logs[c])))
      && (!p.encodeFailed ==> ConsecutiveOnTheWire(p.logs[c]))
  {
    FramesAreOrdered(run);
    var p := QuietAfter(Initial, run).value;
    if p.sequence < U64_SIZE {
      WireIncreases(p.logs[c]);
    }
    if !p.encodeFailed {
      WireFollows(p.logs[c]);
    }
  }

  // ---------- starts that no call overlaps ----------

  /** In particular, when no call overlaps a start, no start finds another loop. */
  lemma {:induction false} SerialIsAlone(p: Proto, run: seq<Label>)
    requires Serial(p) && SerialAfter(p, run).Some?
    ensures AloneAfter(p, run) == SerialAfter(p, run)
  {
    if run != [] {
      SerialIsAlone(p, run[..|run| - 1]);
      SerialRunsHaveOneTickLoop(p, run[..|run| - 1]);
    }
  }

  lemma {:induction false} AloneIsQuiet(p: Proto, run: seq<Label>)
    requires AloneAfter(p, run).Some?
    ensures QuietAfter(p, run) == AloneAfter(p, run)
  {
    if run != [] {
      AloneIsQuiet(p, run[..|run| - 1]);
    }
  }
}

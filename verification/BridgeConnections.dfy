/** Without a connection no bridge starts and no tick goes on: what a Disconnect, a failed Connect, a
    lost connection and a closed listener leave behind in every interleaving. */
module BridgeConnections {
  import opened Wrappers
  import opened BridgeState
  import opened BridgeProtocol

  /** The bridge is off and has no connection. */
  predicate Unconnected(sh: Shared) {
    !sh.running && sh.client.None? && !sh.opcConnected
  }

  lemma NextUnconnected(p: Proto, l: Label)
    requires Unconnected(p.sh) && Enabled(p, l) && l != ConnectEnds(true)
    ensures Unconnected(Next(p, l).sh) && !Starts(p, l)
  {
  }

  /** No start of the run goes through. */
  ghost predicate NoneStarts(p: Proto, run: seq<Label>) {
    forall k :: 0 <= k < |run| ==> After(p, run[..k]).Some? && !Starts(After(p, run[..k]).value, run[k])
  }

  lemma {:induction false} StaysUnconnected(p: Proto, run: seq<Label>)
    requires Unconnected(p.sh) && After(p, run).Some? && ConnectEnds(true) !in run
    ensures Unconnected(After(p, run).value.sh) && NoneStarts(p, run)
  {
    if run != [] {
      var m, l := run[..|run| - 1], run[|run| - 1];
      assert l in run && forall x :: x in m ==> x in run;
      StaysUnconnected(p, m);
      NextUnconnected(After(p, m).value, l);
      forall k | 0 <= k < |run| ensures After(p, run[..k]).Some? && !Starts(After(p, run[..k]).value, run[k]) {
        if k < |m| {
          assert m[..k] == run[..k];
        }
      }
    }
  }

  /** After a Disconnect of a bridge that is off, the client is gone and no start goes through until a
      Connect succeeds, whatever calls, loops and watchers do. */
  lemma DisconnectedNeverStarts(p: Proto, run: seq<Label>)
    requires !p.sh.running && After(Next(p, Disconnects), run).Some? && ConnectEnds(true) !in run
    ensures Next(p, Disconnects).sh.client.None? && !Next(p, Disconnects).sh.opcConnected
    ensures NoneStarts(Next(p, Disconnects), run) && !After(Next(p, Disconnects), run).value.sh.running
  {
    StaysUnconnected(Next(p, Disconnects), run);
  }

  /** A Connect drops the client at once; if it fails, it stays dropped. */
  lemma FailedConnectNeverStarts(p: Proto, run: seq<Label>)
    requires !p.sh.running && After(Next(p, ConnectBegins), run).Some? && ConnectEnds(true) !in run
    ensures Next(p, ConnectBegins).sh.client.None? && !Next(p, ConnectBegins).sh.opcConnected
    ensures NoneStarts(Next(p, ConnectBegins), run) && !After(Next(p, ConnectBegins), run).value.sh.running
  {
    StaysUnconnected(Next(p, ConnectBegins), run);
  }

  /** While the bridge runs, both are refused and change nothing. */
  lemma RefusedWhileRunning(p: Proto)
    requires p.sh.running
    ensures Next(p, Disconnects) == p && Next(p, ConnectBegins) == p
  {
  }

  /** A Connect that succeeds makes the next start with a valid port and a free one go through. */
  lemma ConnectedStarts(p: Proto, port: int)
    requires !p.sh.running && p.connects > 0 && 1 <= port <= 65535
    ensures Starts(Next(p, ConnectEnds(true)), StartBegins(port, true))
  {
  }

  /** What a start that goes through, and the stop after it, do to the shared state. */
  lemma StartsAndStops(p: Proto, port: int)
    requires FlagsAgree(p.sh) && Starts(p, StartBegins(port, true))
    ensures var q := Next(p, StartBegins(port, true)); var r := Next(q, StopBegins(false));
      q.sh.running && q.sh.listener.Some? && q.sh.stop.Some? && q.sh.clients == []
      && p.unused <= q.sh.listener.value < q.unused && p.unused <= q.sh.stop.value < q.unused
      && !r.sh.running && r.sh.listener.None? && r.sh.stop.None? && r.sh.clients == []
      && r.sh.client == p.sh.client && r.sh.opcConnected
      && q.unused in r.stops && r.stops[q.unused] == CloseListener(q.sh.stop, q.sh.listener)
  {
  }

  // ---------- a lost connection ----------

  lemma NextLost(p: Proto, l: Label)
    requires !p.sh.opcConnected && Enabled(p, l) && l != ConnectEnds(true)
    ensures !Next(p, l).sh.opcConnected && (l.TickFires? ==> Next(p, l).ticks == p.ticks)
  {
  }

  /** No turn of the clock in the run makes a tick loop go on. */
  ghost predicate NoTickProceeds(p: Proto, run: seq<Label>) {
    forall k :: 0 <= k < |run| && run[k].TickFires? ==>
      After(p, run[..k]).Some? && After(p, run[..k + 1]).Some?
      && After(p, run[..k + 1]).value.ticks == After(p, run[..k]).value.ticks
  }

  lemma {:induction false} StaysLost(p: Proto, run: seq<Label>)
    requires !p.sh.opcConnected && After(p, run).Some? && ConnectEnds(true) !in run
    ensures !After(p, run).value.sh.opcConnected && NoTickProceeds(p, run)
  {
    if run != [] {
      var m, l := run[..|run| - 1], run[|run| - 1];
      assert run == m + [l] && run[..|run|] == run;
      StaysLost(p, m);
      NextLost(After(p, m).value, l);
      forall k | 0 <= k < |run| && run[k].TickFires?
        ensures After(p, run[..k]).Some? && After(p, run[..k + 1]).Some?
        ensures After(p, run[..k + 1]).value.ticks == After(p, run[..k]).value.ticks
      {
        if k < |m| {
          assert m[..k] == run[..k] && m[..k + 1] == run[..k + 1] && m[k] == run[k];
        }
      }
    }
  }

  /** Once a tick loop has found the connection lost, it quits, and no tick loop goes on from a turn of
      the clock until a Connect succeeds. */
  lemma LostStopsTicks(p: Proto, k: nat, run: seq<Label>)
    requires Enabled(p, TickDead(k)) && After(Next(p, TickDead(k)), run).Some? && ConnectEnds(true) !in run
    ensures k in Next(p, TickDead(k)).ticks && Next(p, TickDead(k)).ticks[k].Lost?
    ensures NoTickProceeds(Next(p, TickDead(k)), run)
  {
    StaysLost(Next(p, TickDead(k)), run);
  }

  /** How many steps of the run are of a kind. */
  function Count(run: seq<Label>, kind: Label -> bool): nat {
    if run == [] then 0 else Count(run[..|run| - 1], kind) + if kind(run[|run| - 1]) then 1 else 0
  }

  lemma NextSelfStop(p: Proto, l: Label)
    requires Enabled(p, l)
    ensures Next(p, l).selfStops
         == p.selfStops + (if l.TickQuits? then 1 else 0) - (if l == StopBegins(true) then 1 else 0)
  {
  }

  /** Each tick loop that quits asks for one stop: no more of them begin than loops have quit, and the
      others are still to come. */
  lemma {:induction false} SelfStopsCounted(run: seq<Label>)
    requires After(Initial, run).Some?
    ensures After(Initial, run).value.selfStops + Count(run, (l: Label) => l == StopBegins(true))
         == Count(run, (l: Label) => l.TickQuits?)
  {
    if run != [] {
      SelfStopsCounted(run[..|run| - 1]);
      NextSelfStop(After(Initial, run[..|run| - 1]).value, run[|run| - 1]);
    }
  }

  // ---------- a closed listener ----------

  lemma {:induction false} StaysClosed(p: Proto, run: seq<Label>, n: nat)
    requires n in p.closedListeners && After(p, run).Some?
    ensures n in After(p, run).value.closedListeners
  {
    if run != [] {
      StaysClosed(p, run[..|run| - 1], n);
    }
  }

  /** Once a listener is closed, no connection comes in through it. */
  lemma ClosedTakesNone(p: Proto, run: seq<Label>, n: nat, a: nat)
    requires n in p.closedListeners && After(p, run).Some? && Enabled(After(p, run).value, Accepts(a))
    ensures After(p, run).value.accepts[a].ln != n
  {
    StaysClosed(p, run, n);
  }
}

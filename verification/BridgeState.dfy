/** The shared state of the bridge service and what each critical section does to it. */
module BridgeState {
  import opened Wrappers

  const U64_SIZE := 0x1_0000_0000_0000_0000

  /** Connections, listeners, stop channels and OPC UA clients are told apart by number. */
  datatype Shared = Shared(
    client: Option<nat>, opcConnected: bool, running: bool,
    listener: Option<nat>, stop: Option<nat>, clients: seq<nat>)

  datatype StartResult = Started | AlreadyRunning | NotConnected | InvalidPort | ListenFailed

  function StartOutcome(sh: Shared, port: int, listens: bool): StartResult {
    if sh.running then AlreadyRunning
    else if !sh.opcConnected || sh.client.None? then NotConnected
    else if port <= 0 || port > 65535 then InvalidPort
    else if !listens then ListenFailed
    else Started
  }

  function AfterStart(sh: Shared, listener: nat, stop: nat): Shared {
    sh.(listener := Some(listener), running := true, clients := [], stop := Some(stop))
  }

  function AfterStop(sh: Shared): Shared {
    if sh.running then sh.(stop := None, listener := None, running := false, clients := []) else sh
  }

  /** Both the first section of Connect and Disconnect drop the client, unless the bridge runs. */
  function AfterDrop(sh: Shared): Shared {
    if sh.running then sh else sh.(client := None, opcConnected := false)
  }

  function AfterConnected(sh: Shared, client: nat): Shared {
    sh.(client := Some(client), opcConnected := true)
  }

  // ---------- the client list ----------

  /** The connections whose write did not fail, in order. */
  function Surviving(clients: seq<nat>, failed: set<nat>): seq<nat> {
    if clients == [] then []
    else
      var init := Surviving(clients[..|clients| - 1], failed);
      if clients[|clients| - 1] in failed then init else init + [clients[|clients| - 1]]
  }

  /** The list without the first occurrence of a connection. */
  function WithoutConn(clients: seq<nat>, conn: nat): seq<nat> {
    if clients == [] then []
    else if clients[0] == conn then clients[1..]
    else [clients[0]] + WithoutConn(clients[1..], conn)
  }

  ghost predicate NoDup(s: seq<nat>) {
    forall i, j :: 0 <= i < j < |s| ==> s[i] != s[j]
  }

  lemma {:induction false} SurvivingKeeps(clients: seq<nat>, failed: set<nat>)
    ensures forall c :: c in Surviving(clients, failed) <==> c in clients && c !in failed
    ensures |Surviving(clients, failed)| <= |clients|
  {
    if clients != [] {
      var init, last := clients[..|clients| - 1], clients[|clients| - 1];
      SurvivingKeeps(init, failed);
      assert clients == init + [last];
    }
  }

  lemma {:induction false} SurvivingFilters(clients: seq<nat>, failed: set<nat>)
    ensures forall c :: c in Surviving(clients, failed) <==> c in clients && c !in failed
    ensures NoDup(clients) ==> NoDup(Surviving(clients, failed))
    ensures |Surviving(clients, failed)| <= |clients|
  {
    SurvivingKeeps(clients, failed);
    if clients != [] && NoDup(clients) {
      var init, last := clients[..|clients| - 1], clients[|clients| - 1];
      SurvivingFilters(init, failed);
      assert forall i :: 0 <= i < |init| ==> init[i] == clients[i];
      assert last !in init;
    }
  }

  /** They stay in their order. */
  lemma {:induction false} SurvivingJoins(a: seq<nat>, b: seq<nat>, failed: set<nat>)
    ensures Surviving(a + b, failed) == Surviving(a, failed) + Surviving(b, failed)
    ensures forall c :: Surviving([c], failed) == if c in failed then [] else [c]
    decreases |b|
  {
    forall c ensures Surviving([c], failed) == if c in failed then [] else [c] {
      assert [c][..0] == [];
    }
    if b == [] {
      assert a + b == a;
    } else {
      assert (a + b)[..|a + b| - 1] == a + b[..|b| - 1];
      SurvivingJoins(a, b[..|b| - 1], failed);
    }
  }

  /** Which starts go through, and what the others are told. */
  lemma StartOutcomeIff(sh: Shared, port: int, listens: bool)
    ensures var r, connected, valid := StartOutcome(sh, port, listens), sh.opcConnected && sh.client.Some?,
                                       1 <= port <= 65535;
      (r == AlreadyRunning <==> sh.running) && (r == NotConnected <==> !sh.running && !connected)
      && (r == InvalidPort <==> !sh.running && connected && !valid)
      && (r == ListenFailed <==> !sh.running && connected && valid && !listens)
      && (r == Started <==> !sh.running && connected && valid && listens)
  {
  }

  lemma {:induction false} WithoutConnRemoves(clients: seq<nat>, conn: nat)
    requires NoDup(clients)
    ensures forall c :: c in WithoutConn(clients, conn) <==> c in clients && c != conn
    ensures NoDup(WithoutConn(clients, conn))
  {
    if clients != [] {
      var rest := clients[1..];
      assert clients == [clients[0]] + rest;
      assert forall i :: 0 <= i < |rest| ==> rest[i] == clients[i + 1];
      WithoutConnRemoves(rest, conn);
      var r := WithoutConn(rest, conn);
      assert clients[0] !in rest;
      assert forall i :: 0 <= i < |r| ==> r[i] in rest;
    }
  }

  lemma {:induction false} WithoutConnAt(clients: seq<nat>, conn: nat, i: nat)
    requires i < |clients| && clients[i] == conn && forall k :: 0 <= k < i ==> clients[k] != conn
    ensures WithoutConn(clients, conn) == clients[..i] + clients[i + 1..]
  {
    if i > 0 {
      WithoutConnAt(clients[1..], conn, i - 1);
      assert clients[..i] == [clients[0]] + clients[1..][..i - 1];
    }
  }

  lemma {:induction false} WithoutConnAbsent(clients: seq<nat>, conn: nat)
    requires conn !in clients
    ensures WithoutConn(clients, conn) == clients
  {
    if clients != [] {
      WithoutConnAbsent(clients[1..], conn);
    }
  }

  // ---------- the service ----------

  class Service {
    var client: Option<nat>
    var opcConnected: bool
    var running: bool
    var listener: Option<nat>
    var stop: Option<nat>
    var clients: array<nat>
    var count: nat
    var sequence: nat

    ghost predicate Valid()
      reads this
    {
      count <= clients.Length
    }

    ghost function View(): Shared
      requires Valid()
      reads this, clients
    {
      Shared(client, opcConnected, running, listener, stop, clients[..count])
    }

    constructor ()
      ensures Valid() && fresh(clients) && sequence == 0
      ensures View() == Shared(None, false, false, None, None, [])
    {
      client, opcConnected, running := None, false, false;
      listener, stop, count, sequence := None, None, 0, 0;
      clients := new nat[0];
    }

    /** The first section of Connect; `refused` is the error "stop the bridge before reconnecting". */
    method ConnectBegin() returns (refused: bool)
      requires Valid()
      modifies `client, `opcConnected
      ensures Valid() && refused == old(running) && View() == AfterDrop(old(View()))
      ensures !old(running) ==> client.None? && !opcConnected
      ensures old(running) ==> client == old(client) && opcConnected == old(opcConnected)
    {
      if running {
        return true;
      }
      if client.Some? {
        client := None;
      }
      opcConnected := false;
      return false;
    }

    /** The last section of Connect. */
    method ConnectEnd(c: nat)
      requires Valid()
      modifies `client, `opcConnected
      ensures Valid() && View() == AfterConnected(old(View()), c)
      ensures client == Some(c) && opcConnected
    {
      client := Some(c);
      opcConnected := true;
    }

    method Disconnect() returns (refused: bool)
      requires Valid()
      modifies `client, `opcConnected
      ensures Valid() && refused == old(running) && View() == AfterDrop(old(View()))
      ensures !old(running) ==> client.None? && !opcConnected
      ensures old(running) ==> client == old(client) && opcConnected == old(opcConnected)
    {
      if running {
        return true;
      }
      if client.Some? {
        client := None;
        opcConnected := false;
        return false;
      }
      opcConnected := false;
      return false;
    }

    method StartSection(port: int, listens: bool, ln: nat, ch: nat) returns (r: StartResult)
      requires Valid()
      modifies `listener, `running, `clients, `count, `stop
      ensures Valid() && (clients == old(clients) || fresh(clients))
      ensures r == StartOutcome(old(View()), port, listens)
      ensures r == Started
         <==> !old(running) && opcConnected && client.Some? && 1 <= port <= 65535 && listens
      ensures r == Started ==> running && listener == Some(ln) && stop == Some(ch) && count == 0
      ensures View() == if r == Started then AfterStart(old(View()), ln, ch) else old(View())
    {
      if running {
        return AlreadyRunning;
      }
      if !opcConnected || client.None? {
        return NotConnected;
      }
      if port <= 0 || port > 65535 {
        return InvalidPort;
      }
      if !listens {
        return ListenFailed;
      }
      listener := Some(ln);
      running := true;
      clients := new nat[0];
      count := 0;
      stop := Some(ch);
      return Started;
    }

    /** The locked part of StopBridge hands out what has to be closed. */
    method StopSection() returns (ch: Option<nat>, ln: Option<nat>, conns: seq<nat>)
      requires Valid()
      modifies `listener, `running, `clients, `count, `stop
      ensures Valid() && (clients == old(clients) || fresh(clients))
      ensures View() == AfterStop(old(View()))
      ensures !running && (old(running) ==> stop.None? && listener.None? && count == 0)
      ensures old(running) ==> ch == old(stop) && ln == old(listener) && conns == old(View()).clients
      ensures !old(running) ==> ch == None && ln == None && conns == []
    {
      if !running {
        return None, None, [];
      }
      ch, ln := stop, listener;
      stop := None;
      listener := None;
      running := false;
      conns := clients[..count];
      clients := new nat[0];
      count := 0;
    }

    /** Append an accepted connection; a full slice moves to a larger array. */
    method AcceptSection(conn: nat)
      requires Valid()
      modifies `clients, `count, clients
      ensures Valid() && (clients == old(clients) || fresh(clients))
      ensures View() == old(View()).(clients := old(View()).clients + [conn])
    {
      if count == clients.Length {
        var grown := new nat[2 * count + 1](i requires 0 <= i < 2 * count + 1 reads this, clients =>
          if i < clients.Length then clients[i] else 0);
        assert grown[..count] == clients[..count];
        clients := grown;
      }
      clients[count] := conn;
      count := count + 1;
    }

    /** Compact the list in place: the survivors are written over its own front. */
    method Broadcast(failed: set<nat>)
      requires Valid()
      modifies `count, clients
      ensures Valid() && View() == old(View()).(clients := Surviving(old(View()).clients, failed))
    {
      ghost var all := clients[..count];
      var alive := 0;
      var i := 0;
      while i < count
        invariant 0 <= alive <= i <= count == |all| && count == old(count)
        invariant clients[..alive] == Surviving(all[..i], failed)
        invariant forall k :: i <= k < count ==> clients[k] == all[k]
      {
        assert all[..i + 1][..i] == all[..i];
        if clients[i] !in failed {
          clients[alive] := clients[i];
          alive := alive + 1;
        }
        i := i + 1;
      }
      assert all[..i] == all;
      count := alive;
    }

    /** Splice a connection out in place, if it is still there. */
    method RemoveConn(conn: nat)
      requires Valid()
      modifies `count, clients
      ensures Valid() && View() == old(View()).(clients := WithoutConn(old(View()).clients, conn))
    {
      ghost var all := clients[..count];
      var i := 0;
      while i < count
        invariant 0 <= i <= count == old(count) && clients[..count] == all
        invariant forall k :: 0 <= k < i ==> clients[k] != conn
      {
        if clients[i] == conn {
          assert all[i] == conn && forall k :: 0 <= k < i ==> all[k] == clients[k];
          WithoutConnAt(all, conn, i);
          forall k | i <= k < count - 1 {
            clients[k] := clients[k + 1];
          }
          count := count - 1;
          assert clients[..count] == all[..i] + all[i + 1..];
          return;
        }
        i := i + 1;
      }
      WithoutConnAbsent(all, conn);
    }

    /** A tick goes on only while the bridge runs connected and has a client. */
    method TickProceeds() returns (go: bool)
      requires Valid()
      ensures go <==> View().running && View().opcConnected && View().client.Some?
    {
      var run := running && opcConnected;
      go := run && client.Some?;
    }

    method ConnectionLost()
      requires Valid()
      modifies `opcConnected
      ensures Valid() && View() == old(View()).(opcConnected := false)
    {
      opcConnected := false;
    }

    /** The 64-bit atomic counter of readFrame. */
    method NextSequence() returns (n: nat)
      modifies `sequence
      ensures n == sequence == (old(sequence) + 1) % U64_SIZE
    {
      sequence := (sequence + 1) % U64_SIZE;
      n := sequence;
    }
  }
}

/** The stand-alone bridge's table of 32 clients and the numbers of the frames they receive. */
module ClientTables {

  const MAX_CLIENTS := 32
  const U64_SIZE := 0x1_0000_0000_0000_0000

  datatype Slot = Slot(socket: nat, active: bool)

  const FREE := Slot(0, false)

  predicate Holds(slots: seq<Slot>, socket: nat) {
    exists i :: 0 <= i < |slots| && slots[i] == Slot(socket, true)
  }

  /** No connection is in two slots. */
  predicate Distinct(slots: seq<Slot>) {
    forall i, j :: 0 <= i < j < |slots| && slots[i].active && slots[j].active ==> slots[i].socket != slots[j].socket
  }

  function FirstFree(slots: seq<Slot>): (k: nat)
    ensures k <= |slots| && (forall i :: 0 <= i < k ==> slots[i].active)
    ensures k < |slots| ==> !slots[k].active
  {
    if slots == [] || !slots[0].active then 0 else 1 + FirstFree(slots[1..])
  }

  /** A new connection takes the first free slot, or is closed when there is none. */
  function Accepted(slots: seq<Slot>, socket: nat): seq<Slot> {
    var k := FirstFree(slots);
    if k == |slots| then slots else slots[k := Slot(socket, true)]
  }

  function Removed(slots: seq<Slot>, index: nat): seq<Slot> {
    if index < |slots| && slots[index].active then slots[index := FREE] else slots
  }

  /** The table after a broadcast: exactly the connections that did not take the whole frame go. */
  function Broadcasted(slots: seq<Slot>, taken: set<nat>): (r: seq<Slot>)
    ensures |r| == |slots|
  {
    seq(|slots|, i requires 0 <= i < |slots| => if slots[i].active && slots[i].socket !in taken then FREE else slots[i])
  }

  class ClientTable {
    const slots: array<Slot>

    ghost predicate Valid()
      reads this, slots
    {
      slots.Length == MAX_CLIENTS && forall i :: 0 <= i < slots.Length && !slots[i].active ==> slots[i] == FREE
    }

    constructor ()
      ensures Valid() && fresh(slots) && forall i :: 0 <= i < slots.Length ==> slots[i] == FREE
    {
      slots := new Slot[MAX_CLIENTS](_ => FREE);
    }

    method FindFree() returns (index: int)
      requires Valid()
      ensures index == if FirstFree(slots[..]) == MAX_CLIENTS then -1 else FirstFree(slots[..])
    {
      var i := 0;
      while i < MAX_CLIENTS
        invariant 0 <= i <= MAX_CLIENTS
        invariant FirstFree(slots[..]) == i + FirstFree(slots[i..])
      {
        if !slots[i].active {
          return i;
        }
        assert slots[i..][1..] == slots[i + 1..];
        i := i + 1;
      }
      return -1;
    }

    method Remove(index: int)
      requires Valid()
      modifies slots
      ensures Valid()
      ensures slots[..] == if index < 0 then old(slots[..]) else Removed(old(slots[..]), index)
    {
      if 0 <= index < MAX_CLIENTS && slots[index].active {
        slots[index] := FREE;
      }
    }

    /** The result is false when the connection is closed at once. */
    method Accept(socket: nat) returns (kept: bool)
      requires Valid()
      modifies slots
      ensures Valid()
      ensures slots[..] == Accepted(old(slots[..]), socket)
      ensures kept <==> FirstFree(old(slots[..])) < MAX_CLIENTS
    {
      var slot := FindFree();
      if slot < 0 {
        return false;
      }
      slots[slot] := Slot(socket, true);
      return true;
    }

    /** `taken` holds the connections to which the whole frame can be sent. */
    method Broadcast(taken: set<nat>)
      requires Valid()
      modifies slots
      ensures Valid()
      ensures slots[..] == Broadcasted(old(slots[..]), taken)
    {
      var i := 0;
      while i < MAX_CLIENTS
        invariant 0 <= i <= MAX_CLIENTS && Valid()
        invariant forall k :: 0 <= k < i ==> slots[k] == Broadcasted(old(slots[..]), taken)[k]
        invariant forall k :: i <= k < MAX_CLIENTS ==> slots[k] == old(slots[k])
      {
        if slots[i].active {
          if slots[i].socket !in taken {
            Remove(i);
          }
        }
        i := i + 1;
      }
    }
  }

  // ---------- whole runs ----------

  datatype Event =
    | Arrives(socket: nat)
    | Closes(index: nat)
    | Frame(taken: set<nat>)

  /** The table, the frame counter, and for every connection accepted so far the numbers of the
      frames it took whole. */
  datatype World = World(slots: seq<Slot>, counter: nat, got: map<nat, seq<nat>>)

  function NextNumber(n: nat): nat {
    (n + 1) % U64_SIZE
  }

  /** What each connection has taken after a frame with number n. */
  function Deliver(slots: seq<Slot>, got: map<nat, seq<nat>>, taken: set<nat>, n: nat): map<nat, seq<nat>> {
    map c | c in got :: if Holds(slots, c) && c in taken then got[c] + [n] else got[c]
  }

  function Next(w: World, e: Event): World {
    match e
    case Arrives(c) => if c in w.got then w else World(Accepted(w.slots, c), w.counter, w.got[c := []])
    case Closes(i) => w.(slots := Removed(w.slots, i))
    case Frame(taken) =>
      var n := NextNumber(w.counter);
      World(Broadcasted(w.slots, taken), n, Deliver(w.slots, w.got, taken, n))
  }

  function Run(w: World, events: seq<Event>): World
    decreases |events|
  {
    if events == [] then w else Run(Next(w, events[0]), events[1..])
  }

  predicate Consecutive(numbers: seq<nat>) {
    forall i :: 0 <= i < |numbers| - 1 ==> numbers[i + 1] == NextNumber(numbers[i])
  }

  predicate UpTo(numbers: seq<nat>, n: nat) {
    Consecutive(numbers) && (numbers == [] || numbers[|numbers| - 1] == n)
  }

  ghost predicate InOrder(w: World) {
    (forall c :: c in w.got ==> Consecutive(w.got[c]))
    && forall i :: 0 <= i < |w.slots| && w.slots[i].active ==>
         w.slots[i].socket in w.got && UpTo(w.got[w.slots[i].socket], w.counter)
  }

  lemma AcceptedIsDistinct(slots: seq<Slot>, socket: nat)
    requires Distinct(slots) && !Holds(slots, socket)
    ensures Distinct(Accepted(slots, socket))
  {
    forall i | 0 <= i < |slots| && slots[i].active ensures slots[i].socket != socket {
      assert slots[i] == Slot(slots[i].socket, true);
    }
  }

  lemma OneMore(numbers: seq<nat>, n: nat)
    requires UpTo(numbers, n)
    ensures UpTo(numbers + [NextNumber(n)], NextNumber(n))
  {
  }

  lemma FrameKeepsOrder(w: World, taken: set<nat>)
    requires InOrder(w) && Distinct(w.slots)
    ensures InOrder(Next(w, Frame(taken)))
  {
    var n := NextNumber(w.counter);
    var slots, got := Broadcasted(w.slots, taken), Deliver(w.slots, w.got, taken, n);
    forall c | c in got ensures Consecutive(got[c]) {
      if Holds(w.slots, c) && c in taken {
        OneMore(w.got[c], w.counter);
      }
    }
    forall i | 0 <= i < |slots| && slots[i].active ensures slots[i].socket in got && UpTo(got[slots[i].socket], n) {
      assert w.slots[i] == slots[i] == Slot(slots[i].socket, true);
      OneMore(w.got[slots[i].socket], w.counter);
    }
  }

  lemma NextKeepsOrder(w: World, e: Event)
    requires InOrder(w) && Distinct(w.slots)
    ensures InOrder(Next(w, e)) && Distinct(Next(w, e).slots)
  {
    match e
    case Arrives(c) =>
      if c !in w.got {
        assert !Holds(w.slots, c);
        AcceptedIsDistinct(w.slots, c);
      }
    case Closes(i) =>
    case Frame(taken) => FrameKeepsOrder(w, taken);
  }

  /** In every run of arrivals, closings and frames, whatever the sends do, each connection takes
      frames with consecutive numbers, and those still in the table have taken the latest one
      since they arrived. */
  lemma {:induction false} EveryClientGetsConsecutiveFrames(w: World, events: seq<Event>)
    requires InOrder(w) && Distinct(w.slots)
    ensures InOrder(Run(w, events)) && Distinct(Run(w, events).slots)
    decreases |events|
  {
    if events != [] {
      NextKeepsOrder(w, events[0]);
      EveryClientGetsConsecutiveFrames(Next(w, events[0]), events[1..]);
    }
  }

  lemma OnlyArrivalsEnter(w: World, e: Event, i: nat)
    requires i < |Next(w, e).slots| && Next(w, e).slots[i].active && Next(w, e).slots[i].socket in w.got
    ensures i < |w.slots| && w.slots[i] == Next(w, e).slots[i]
  {
  }

  /** A broadcast keeps exactly the connections that took the whole frame, and they have its number. */
  lemma BroadcastIff(w: World, taken: set<nat>, c: nat)
    ensures var v := Next(w, Frame(taken));
      (Holds(v.slots, c) <==> Holds(w.slots, c) && c in taken)
      && v.counter == (w.counter + 1) % U64_SIZE && v.got.Keys == w.got.Keys
      && (c in w.got ==> v.got[c] == w.got[c] + if Holds(w.slots, c) && c in taken then [v.counter] else [])
  {
    var v := Next(w, Frame(taken));
    if Holds(w.slots, c) && c in taken {
      var i :| 0 <= i < |w.slots| && w.slots[i] == Slot(c, true);
      assert v.slots[i] == Slot(c, true);
    }
    if Holds(v.slots, c) {
      var i :| 0 <= i < |v.slots| && v.slots[i] == Slot(c, true);
      assert w.slots[i] == Slot(c, true);
    }
  }

  /** A new connection gets in exactly when a slot is free, and has taken nothing yet. */
  lemma ArrivesIff(w: World, c: nat)
    requires c !in w.got && !Holds(w.slots, c)
    ensures var v := Next(w, Arrives(c));
      (Holds(v.slots, c) <==> exists i :: 0 <= i < |w.slots| && !w.slots[i].active)
      && v.counter == w.counter && v.got == w.got[c := []]
      && forall d :: d != c ==> (Holds(v.slots, d) <==> Holds(w.slots, d))
  {
    var v, k := Next(w, Arrives(c)), FirstFree(w.slots);
    if k < |w.slots| {
      assert v.slots[k] == Slot(c, true);
    }
    forall d | d != c ensures Holds(v.slots, d) <==> Holds(w.slots, d) {
      if Holds(w.slots, d) {
        var i :| 0 <= i < |w.slots| && w.slots[i] == Slot(d, true);
        assert v.slots[i] == Slot(d, true);
      }
      if Holds(v.slots, d) {
        var i :| 0 <= i < |v.slots| && v.slots[i] == Slot(d, true);
        assert w.slots[i] == Slot(d, true);
      }
    }
  }

  /** Closing a slot takes out the connection that is in it, and no other. */
  lemma ClosesIff(w: World, i: nat, c: nat)
    requires Distinct(w.slots) && i < |w.slots| && w.slots[i] == Slot(c, true)
    ensures var v := Next(w, Closes(i));
      !Holds(v.slots, c) && v.counter == w.counter && v.got == w.got
      && forall d :: d != c ==> (Holds(v.slots, d) <==> Holds(w.slots, d))
  {
    var v := Next(w, Closes(i));
    forall d | d != c ensures Holds(v.slots, d) <==> Holds(w.slots, d) {
      if Holds(w.slots, d) {
        var j :| 0 <= j < |w.slots| && w.slots[j] == Slot(d, true);
        assert v.slots[j] == Slot(d, true);
      }
      if Holds(v.slots, d) {
        var j :| 0 <= j < |v.slots| && v.slots[j] == Slot(d, true);
        assert w.slots[j] == Slot(d, true);
      }
    }
  }

  /** Frames to the connections that take them whole. */
  function Frames(takers: seq<set<nat>>): (events: seq<Event>)
    ensures |events| == |takers| && forall i :: 0 <= i < |events| ==> events[i] == Frame(takers[i])
  {
    seq(|takers|, i requires 0 <= i < |takers| => Frame(takers[i]))
  }

  /** A connection that is in the table and takes every frame gets every frame, and stays. */
  lemma {:induction false} TakesEveryFrame(w: World, takers: seq<set<nat>>, c: nat)
    requires Holds(w.slots, c) && c in w.got && forall i :: 0 <= i < |takers| ==> c in takers[i]
    ensures var v := Run(w, Frames(takers));
      Holds(v.slots, c) && c in v.got && |v.got[c]| == |w.got[c]| + |takers|
    decreases |takers|
  {
    if takers != [] {
      BroadcastIff(w, takers[0], c);
      assert Frames(takers)[1..] == Frames(takers[1..]);
      TakesEveryFrame(Next(w, Frame(takers[0])), takers[1..], c);
    }
  }

  /** A connection that has left the table never takes another frame. */
  lemma {:induction false} GoneIsGone(w: World, events: seq<Event>, c: nat)
    requires c in w.got && !Holds(w.slots, c)
    ensures var v := Run(w, events); c in v.got && v.got[c] == w.got[c] && !Holds(v.slots, c)
    decreases |events|
  {
    if events != [] {
      var v := Next(w, events[0]);
      forall i | 0 <= i < |v.slots| && v.slots[i].active
        ensures v.slots[i].socket in w.got ==> i < |w.slots| && w.slots[i] == v.slots[i]
      {
        if v.slots[i].socket in w.got {
          OnlyArrivalsEnter(w, events[0], i);
        }
      }
      GoneIsGone(v, events[1..], c);
    }
  }
}

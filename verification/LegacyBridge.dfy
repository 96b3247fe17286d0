/** The stand-alone bridge: its reconnect backoff over whole runs of the main loop, and what it
    reads and encodes at each update. */
module LegacyBridge {
  import opened Wrappers
  import opened Frames
  import opened FrameWriters
  import E = Encoders
  import M = MsgPack

  const U64_SIZE := 0x1_0000_0000_0000_0000

  /** The namespace index that stands for none found yet. */
  const NO_NAMESPACE := 0xffff

  /** The ids of the five sensors, told apart by number; None is the null id. */
  type SensorIds = ids: seq<Option<nat>> | |ids| == |SENSOR_NAMES| witness [None, None, None, None, None]

  /** How far an attempt to reach the server and resolve the five sensors gets; `answers` holds
      what browsing for each sensor would give. */
  datatype Outcome = ConnectFailed | NoNamespace | NoFolder(ns: nat) | Browsed(ns: nat, answers: SensorIds)

  /** How many sensors are found before the first that is not. */
  function Found(answers: SensorIds, from: nat): (k: nat)
    requires from <= |answers|
    ensures from <= k <= |answers| && forall i :: from <= i < k ==> answers[i].Some?
    ensures k < |answers| ==> answers[k].None?
    decreases |answers| - from
  {
    if from == |answers| || answers[from].None? then from else Found(answers, from + 1)
  }

  predicate Resolves(o: Outcome) {
    o.Browsed? && Found(o.answers, 0) == |SENSOR_NAMES|
  }

  /** Each id is cleared and browsed for, up to the first sensor that is not found. */
  function IdsAfter(ids: SensorIds, answers: SensorIds): (r: SensorIds)
    ensures Found(answers, 0) == |answers| ==> r == answers
  {
    seq(|ids|, i requires 0 <= i < |ids| => if i <= Found(answers, 0) then answers[i] else ids[i])
  }

  /** The ids before the first sensor that is not found are new, its own is cleared, and the later ones
      stay as they were. */
  lemma IdsByPosition(ids: SensorIds, answers: SensorIds, k: nat, i: nat)
    requires k <= 5 && (forall j :: 0 <= j < k ==> answers[j].Some?) && (k < 5 ==> answers[k].None?) && i < 5
    ensures (i < k ==> IdsAfter(ids, answers)[i] == answers[i])
         && (i == k ==> IdsAfter(ids, answers)[i] == None) && (i > k ==> IdsAfter(ids, answers)[i] == ids[i])
  {
  }

  /** What the main loop remembers between passes. */
  datatype Link = Link(backoff: nat, last: nat, ns: nat, resolved: bool, ids: SensorIds)

  const START := Link(1000, 0, NO_NAMESPACE, false, [None, None, None, None, None])

  /** What one pass finds: the clock, the state of the session, and how an attempt would end. */
  datatype Pass = Pass(now: nat, connected: bool, outcome: Outcome)

  function Grown(backoff: nat): nat {
    if backoff < 10000 then backoff * 2 else 10000
  }

  predicate Attempts(l: Link, t: Pass) {
    (l.ns == NO_NAMESPACE || !t.connected || !l.resolved) && (t.now - l.last) % U64_SIZE >= l.backoff
  }

  function AfterAttempt(l: Link, now: nat, o: Outcome): Link {
    match o
    case ConnectFailed => l.(backoff := Grown(l.backoff), last := now)
    case NoNamespace => l.(backoff := Grown(l.backoff), last := now)
    case NoFolder(ns) => l.(backoff := Grown(l.backoff), last := now, ns := ns)
    case Browsed(ns, answers) =>
      Link(if Resolves(o) then 1000 else Grown(l.backoff), now, ns, Resolves(o), IdsAfter(l.ids, answers))
  }

  function Next(l: Link, t: Pass): Link {
    if Attempts(l, t) then AfterAttempt(l, t.now, t.outcome) else l
  }

  class Reconnector {
    var backoff: nat
    var last: nat
    var ns: nat
    var resolved: bool
    const ids: array<Option<nat>>

    ghost predicate Valid() {
      ids.Length == |SENSOR_NAMES|
    }

    ghost function View(): Link
      requires Valid()
      reads this, ids
    {
      Link(backoff, last, ns, resolved, ids[..])
    }

    constructor ()
      ensures Valid() && fresh(ids) && View() == START
      ensures backoff == 1000 && last == 0 && ns == 65535 && !resolved && ids[..] == [None, None, None, None, None]
    {
      backoff, last, ns, resolved := 1000, 0, NO_NAMESPACE, false;
      ids := new Option<nat>[5](_ => None);
      new;
      assert ids[..] == START.ids;
    }

    /** Browse for each sensor in turn, up to the first that is not found. */
    method BrowseSensors(answers: SensorIds)
      requires Valid()
      modifies `resolved, ids
      ensures resolved <==> Found(answers, 0) == |SENSOR_NAMES|
      ensures ids[..] == IdsAfter(old(ids[..]), answers)
    {
      ghost var before := ids[..];
      resolved := true;
      var i := 0;
      while i < |SENSOR_NAMES|
        invariant 0 <= i <= |SENSOR_NAMES| && resolved
        invariant Found(answers, 0) == Found(answers, i)
        invariant forall k :: 0 <= k < i ==> ids[k] == answers[k]
        invariant forall k :: i <= k < |SENSOR_NAMES| ==> ids[k] == before[k]
      {
        ids[i] := None;
        if answers[i].Some? {
          ids[i] := answers[i];
        } else {
          resolved := false;
          break;
        }
        i := i + 1;
      }
      assert forall k :: 0 <= k < |SENSOR_NAMES| ==> ids[k] == IdsAfter(before, answers)[k];
    }

    /** The reconnect part of one pass of the main loop. */
    method TryReconnect(now: nat, connected: bool, outcome: Outcome) returns (attempted: bool)
      requires Valid()
      modifies this, ids
      ensures attempted == Attempts(old(View()), Pass(now, connected, outcome))
      ensures View() == Next(old(View()), Pass(now, connected, outcome))
    {
      attempted := false;
      if ns == NO_NAMESPACE || !connected || !resolved {
        if (now - last) % U64_SIZE >= backoff {
          attempted := true;
          if !outcome.ConnectFailed? {
            if !outcome.NoNamespace? {
              ns := outcome.ns;
              if !outcome.NoFolder? {
                BrowseSensors(outcome.answers);
                if resolved {
                  backoff := 1000;
                }
                if !resolved {
                  backoff := if backoff < 10000 then backoff * 2 else 10000;
                }
              } else {
                backoff := if backoff < 10000 then backoff * 2 else 10000;
              }
            } else {
              backoff := if backoff < 10000 then backoff * 2 else 10000;
            }
          } else {
            backoff := if backoff < 10000 then backoff * 2 else 10000;
          }
          last := now;
        }
      }
    }
  }

  // ---------- whole runs ----------

  function After(passes: seq<Pass>): Link {
    if passes == [] then START else Next(After(passes[..|passes| - 1]), passes[|passes| - 1])
  }

  /** The attempts of a run, in order. */
  function AttemptsOf(passes: seq<Pass>): seq<Pass> {
    if passes == [] then []
    else
      var n := |passes| - 1;
      AttemptsOf(passes[..n]) + if Attempts(After(passes[..n]), passes[n]) then [passes[n]] else []
  }

  /** How many attempts failed since the last one that resolved everything. */
  function FailuresInARow(attempts: seq<Pass>): nat {
    if attempts == [] || Resolves(attempts[|attempts| - 1].outcome) then 0
    else 1 + FailuresInARow(attempts[..|attempts| - 1])
  }

  function Power2(k: nat): nat {
    if k == 0 then 1 else 2 * Power2(k - 1)
  }

  /** The delay after k failures in a row. */
  function Delay(k: nat): (d: nat)
    ensures 1000 <= d <= 16000
  {
    if k <= 4 then
      assert Power2(2) == 4 && Power2(4) == 4 * Power2(2) && Power2(3) == 8 && Power2(1) == 2 && Power2(0) == 1;
      1000 * Power2(k)
    else 10000
  }

  lemma DelayGrows(k: nat)
    ensures Grown(Delay(k)) == Delay(k + 1)
  {
    assert Power2(1) == 2 && Power2(2) == 2 * Power2(1) && Power2(3) == 2 * Power2(2) && Power2(4) == 2 * Power2(3);
  }

  lemma SnocAttempt(attempts: seq<Pass>, t: Pass)
    ensures FailuresInARow(attempts + [t]) == if Resolves(t.outcome) then 0 else 1 + FailuresInARow(attempts)
  {
    assert (attempts + [t])[..|attempts|] == attempts;
  }

  lemma NextDelay(l: Link, t: Pass, failures: nat)
    requires Attempts(l, t) && l.backoff == Delay(failures)
    ensures Next(l, t).backoff == Delay(if Resolves(t.outcome) then 0 else 1 + failures) && Next(l, t).last == t.now
  {
    assert Delay(0) == 1000 by { assert Power2(0) == 1; }
    DelayGrows(failures);
  }

  /** In every run the backoff is the delay for the failures since the last full resolution:
      1000 * 2^k for k up to 4, then 10000; so it stays between 1000 and 16000. */
  lemma {:induction false} BackoffIsDelay(passes: seq<Pass>)
    ensures After(passes).backoff == Delay(FailuresInARow(AttemptsOf(passes)))
    ensures 1000 <= After(passes).backoff <= 16000
    ensures AttemptsOf(passes) != [] ==> After(passes).last == AttemptsOf(passes)[|AttemptsOf(passes)| - 1].now
  {
    if passes == [] {
      assert Power2(0) == 1;
    } else {
      var n := |passes| - 1;
      BackoffIsDelay(passes[..n]);
      var before := AttemptsOf(passes[..n]);
      if Attempts(After(passes[..n]), passes[n]) {
        SnocAttempt(before, passes[n]);
        NextDelay(After(passes[..n]), passes[n], FailuresInARow(before));
      } else {
        assert before + [] == before;
      }
    }
  }

  /** While the clock does not go backwards, each attempt waits at least the delay that the
      failures before it call for. */
  lemma {:induction false} AttemptsAreSpaced(passes: seq<Pass>, i: nat)
    requires forall j, k :: 0 <= j < k < |passes| ==> passes[j].now <= passes[k].now
    requires forall j :: 0 <= j < |passes| ==> passes[j].now < U64_SIZE
    requires i + 1 < |AttemptsOf(passes)|
    ensures AttemptsOf(passes)[i].now + Delay(FailuresInARow(AttemptsOf(passes)[..i + 1]))
         <= AttemptsOf(passes)[i + 1].now
  {
    var n := |passes| - 1;
    var before := AttemptsOf(passes[..n]);
    if i + 1 < |before| {
      AttemptsAreSpaced(passes[..n], i);
      assert AttemptsOf(passes)[..i + 1] == before[..i + 1];
    } else {
      BackoffIsDelay(passes[..n]);
      assert AttemptsOf(passes)[..i + 1] == before;
      AttemptsArePasses(passes[..n], i);
    }
  }

  lemma {:induction false} AttemptsArePasses(passes: seq<Pass>, i: nat)
    requires i < |AttemptsOf(passes)|
    ensures AttemptsOf(passes)[i] in passes
  {
    var n := |passes| - 1;
    if i < |AttemptsOf(passes[..n])| {
      AttemptsArePasses(passes[..n], i);
    }
  }

  /** The last attempt that came to browse for the sensors. */
  function LastBrowse(attempts: seq<Pass>): Option<Pass> {
    if attempts == [] then None
    else if attempts[|attempts| - 1].outcome.Browsed? then Some(attempts[|attempts| - 1])
    else LastBrowse(attempts[..|attempts| - 1])
  }

  lemma SnocBrowse(attempts: seq<Pass>, t: Pass)
    ensures LastBrowse(attempts + [t]) == if t.outcome.Browsed? then Some(t) else LastBrowse(attempts)
  {
    assert (attempts + [t])[..|attempts|] == attempts;
  }

  /** In every run the sensors count as resolved exactly when the last attempt that browsed for them
      found all five, and then the ids in use are those it found. */
  lemma {:induction false} IdsAreOfLastBrowse(passes: seq<Pass>)
    ensures var l, b := After(passes), LastBrowse(AttemptsOf(passes));
      (l.resolved <==> b.Some? && Resolves(b.value.outcome))
      && (l.resolved ==> l.ids == b.value.outcome.answers)
  {
    if passes != [] {
      var n := |passes| - 1;
      IdsAreOfLastBrowse(passes[..n]);
      var before := AttemptsOf(passes[..n]);
      if Attempts(After(passes[..n]), passes[n]) {
        SnocBrowse(before, passes[n]);
      } else {
        assert before + [] == before;
      }
    }
  }

  /** The attempt reached the server but did not resolve all sensors. */
  predicate HalfWay(o: Outcome) {
    !o.ConnectFailed? && !Resolves(o)
  }

  /** No pass makes another attempt while the session lasts. */
  ghost predicate NeverAgain(l: Link) {
    forall later: seq<Pass>, i: nat :: i < |later| && (forall t :: t in later ==> t.connected) ==>
      !Attempts(RunFrom(l, later[..i]), later[i])
  }

  lemma {:induction false} ResolvedRests(l: Link, later: seq<Pass>)
    requires l.resolved && l.ns != NO_NAMESPACE && forall t :: t in later ==> t.connected
    ensures RunFrom(l, later) == l
    decreases |later|
  {
    if later != [] {
      ResolvedRests(l, later[1..]);
    }
  }

  lemma NeverAgainIff(l: Link)
    requires l.backoff < U64_SIZE
    ensures NeverAgain(l) <==> l.resolved && l.ns != NO_NAMESPACE
  {
    if l.resolved && l.ns != NO_NAMESPACE {
      forall later: seq<Pass>, i: nat | i < |later| && forall t :: t in later ==> t.connected
        ensures !Attempts(RunFrom(l, later[..i]), later[i])
      {
        ResolvedRests(l, later[..i]);
        assert later[i] in later;
      }
    } else {
      var t := Pass(l.last + l.backoff, true, ConnectFailed);
      var later := [t];
      assert later[..0] == [] && later[0] == t && RunFrom(l, later[..0]) == l;
      assert Attempts(l, t);
    }
  }

  /** After an attempt that reached the server but did not resolve all sensors, no pass attempts
      again while the session lasts exactly when the sensors were resolved before and the attempt
      ended at the namespace or at the folder.  Then the ids that an earlier attempt found stay
      in use, in every later pass of the session. */
  lemma StaleIdsAreKeptIff(passes: seq<Pass>, now: nat, o: Outcome)
    requires HalfWay(o)
    ensures var l, t := After(passes), AfterAttempt(After(passes), now, o);
      (NeverAgain(t)
       <==> l.resolved && ((o.NoNamespace? && l.ns != NO_NAMESPACE) || (o.NoFolder? && o.ns != NO_NAMESPACE)))
      && (NeverAgain(t) ==>
            var b := LastBrowse(AttemptsOf(passes));
            b.Some? && Resolves(b.value.outcome) && t.ids == b.value.outcome.answers
            && forall later: seq<Pass> :: (forall x :: x in later ==> x.connected) ==> RunFrom(t, later).ids == t.ids)
  {
    BackoffIsDelay(passes);
    IdsAreOfLastBrowse(passes);
    var t := AfterAttempt(After(passes), now, o);
    NeverAgainIff(t);
    if NeverAgain(t) {
      forall later: seq<Pass> | forall x :: x in later ==> x.connected ensures RunFrom(t, later).ids == t.ids {
        ResolvedRests(t, later);
      }
    }
  }

  /** Such a state is reached: the sensors resolve, the session is lost, and it comes back without
      the namespace. */
  lemma StaleIdsAreReached(first: Pass, second: Pass, answers: SensorIds)
    requires Found(answers, 0) == |SENSOR_NAMES|
    requires first == Pass(1000, false, Browsed(2, answers)) && second == Pass(2000, false, NoNamespace)
    ensures AttemptsOf([first, second]) == [first, second]
    ensures After([first, second]).ids == answers && NeverAgain(After([first, second]))
  {
    assert [first, second][..1] == [first] && [first][..0] == [];
    assert After([first]) == Link(1000, 1000, 2, true, answers) && AttemptsOf([first]) == [first];
    assert After([first, second]) == Link(2000, 2000, 2, true, answers);
    NeverAgainIff(After([first, second]));
  }

  function RunFrom(l: Link, passes: seq<Pass>): Link
    decreases |passes|
  {
    if passes == [] then l else RunFrom(Next(l, passes[0]), passes[1..])
  }

  // ---------- updates ----------

  const FRAME_BUFFER := 512

  /** The values of a snapshot: a failed read, or a value of another type, counts as false. */
  function Values(outcomes: nat -> E.Outcome): (values: seq<bool>)
    ensures |values| == |SENSOR_NAMES| && forall i :: 0 <= i < |values| ==>
      (values[i] <==> outcomes(i) == E.Boolean(true))
  {
    seq(|SENSOR_NAMES|, i requires 0 <= i < |SENSOR_NAMES| => outcomes(i) == E.Boolean(true))
  }

  /** The five readings of an update, each true exactly if its read gave a Boolean that is true. */
  predicate UpdateTells(got: Received, sequence: int, timestamp: int, outcomes: nat -> E.Outcome) {
    got.version == 1 && got.sequence == sequence && got.timestamp == timestamp && |got.sensors| == 5
    && got.sensors[0].id == Ascii("Sensor1") && got.sensors[1].id == Ascii("Sensor2")
    && got.sensors[2].id == Ascii("Sensor3") && got.sensors[3].id == Ascii("Sensor4")
    && got.sensors[4].id == Ascii("Pi1_InductionSwitch1")
    && forall i :: 0 <= i < 5 ==>
      got.sensors[i].code == 0 && got.sensors[i].value == M.VBool(outcomes(i) == E.Boolean(true))
  }

  lemma UpdateIsRead(sequence: int, timestamp: int, outcomes: nat -> E.Outcome, frame: Bytes)
    requires M.InRange(M.U64, sequence) && M.InRange(M.U64, timestamp)
    requires ValidFrame(Snapshot(sequence, timestamp, Values(outcomes)))
    requires var f := Snapshot(sequence, timestamp, Values(outcomes)); frame == Encoded(f, Canonical(f))
    ensures var r := M.Unpack(frame);
      r.Done? && r.rest == [] && ReadFrame(r.value).Some?
      && UpdateTells(ReadFrame(r.value).value, sequence, timestamp, outcomes)
  {
    var values := Values(outcomes);
    SnapshotIsRead(sequence, timestamp, values, []);
    assert frame + [] == frame;
    FiveTell(ReadFrame(M.Unpack(frame).value).value, sequence, timestamp, values, outcomes);
  }

  lemma FiveTell(got: Received, sequence: int, timestamp: int, values: seq<bool>, outcomes: nat -> E.Outcome)
    requires |values| == 5 && forall i :: 0 <= i < 5 ==> (values[i] <==> outcomes(i) == E.Boolean(true))
    requires got == Received(1, sequence, timestamp,
      [Reading(Ascii("Sensor1"), 0, M.VBool(values[0])), Reading(Ascii("Sensor2"), 0, M.VBool(values[1])),
       Reading(Ascii("Sensor3"), 0, M.VBool(values[2])), Reading(Ascii("Sensor4"), 0, M.VBool(values[3])),
       Reading(Ascii("Pi1_InductionSwitch1"), 0, M.VBool(values[4]))])
    ensures UpdateTells(got, sequence, timestamp, outcomes)
  {
  }

  class Publisher {
    var counter: int

    constructor ()
      ensures counter == 0
    {
      counter := 0;
    }

    method ReadSensors(outcomes: nat -> E.Outcome) returns (sequence: int, values: seq<bool>)
      modifies this
      ensures counter == sequence == (old(counter) + 1) % U64_SIZE && values == Values(outcomes)
    {
      counter := (counter + 1) % U64_SIZE;
      sequence := counter;
      values := [];
      var i := 0;
      while i < |SENSOR_NAMES|
        invariant 0 <= i == |values| <= |SENSOR_NAMES|
        invariant forall k :: 0 <= k < i ==> values[k] == Values(outcomes)[k]
      {
        match outcomes(i) {
          case Boolean(b) => values := values + [b];
          case _ => values := values + [false];
        }
        i := i + 1;
      }
    }

    /** One update reads the sensors and encodes them; the buffer always takes the whole frame,
        so each update has one to send. */
    method Update(timestamp: int, outcomes: nat -> E.Outcome) returns (frame: Bytes)
      requires M.InRange(M.U64, timestamp)
      modifies this
      ensures counter == (old(counter) + 1) % U64_SIZE
      ensures var f := Snapshot(counter, timestamp, Values(outcomes));
        ValidFrame(f) && frame == Encoded(f, Canonical(f)) && 0 < |frame| <= FRAME_BUFFER
      ensures var r := M.Unpack(frame);
        r.Done? && r.rest == [] && ReadFrame(r.value).Some?
        && UpdateTells(ReadFrame(r.value).value, counter, timestamp, outcomes)
    {
      var sequence, values := ReadSensors(outcomes);
      SnapshotFits(sequence, timestamp, values);
      frame := EncodeSnapshot(sequence, timestamp, values, FRAME_BUFFER);
      UpdateIsRead(sequence, timestamp, outcomes, frame);
    }
  }
}

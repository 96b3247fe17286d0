/** The simulated sensors: ticks, client writes, resets and enabling, as steps of a value, and
    what every trace of them leaves in a sensor. */
module Simulation {
  import opened Wrappers
  import opened ServerConfig

  datatype NodeId = Objects | Named(name: string)

  datatype Sensor = Sensor(id: NodeId, name: string, value: bool, overridden: bool)

  /** The value part of a client's write: a Boolean, or anything the callbacks ignore. */
  datatype Written = Bool(b: bool) | Ignored

  datatype Event =
    | Tick
    | WriteSensor(name: string, data: Written)
    | ResetOverrides
    | SetEnabled(on: bool)            // the HTTP path
    | WriteEnabled(data: Written)     // a client writes the SimulationEnabled node

  /** Sensors, the enable flag, the node standing for it, and the values the server serves. */
  datatype Sim = Sim(enabled: bool, node: Option<NodeId>, sensors: seq<Sensor>, served: map<NodeId, bool>)

  // ---------- the steps ----------

  function Switched(x: Sensor, on: bool): Sensor {
    if on then x.(overridden := false) else x.(value := false, overridden := false)
  }

  /** What an event does to one sensor, in the lock-protected part of each operation. */
  function SensorStep(x: Sensor, enabled: bool, e: Event): Sensor {
    match e
    case Tick => if enabled && !x.overridden then x.(value := !x.value) else x
    case WriteSensor(name, Bool(v)) => if x.name == name then x.(value := v, overridden := true) else x
    case WriteSensor(_, Ignored) => x
    case ResetOverrides => x.(overridden := false)
    case SetEnabled(on) => Switched(x, on)
    case WriteEnabled(Bool(on)) => Switched(x, on)
    case WriteEnabled(Ignored) => x
  }

  function StepSensors(sensors: seq<Sensor>, enabled: bool, e: Event): (r: seq<Sensor>)
    ensures |r| == |sensors| && forall i :: 0 <= i < |r| ==> r[i] == SensorStep(sensors[i], enabled, e)
  {
    seq(|sensors|, i requires 0 <= i < |sensors| => SensorStep(sensors[i], enabled, e))
  }

  /** A write by the server itself: it reaches nodes that exist. */
  function Serve(served: map<NodeId, bool>, id: NodeId, v: bool): map<NodeId, bool> {
    if id in served then served[id := v] else served
  }

  /** The writes after a tick, in sensor order: the new value of each sensor not overridden. */
  function ServeTick(served: map<NodeId, bool>, sensors: seq<Sensor>): map<NodeId, bool> {
    if sensors == [] then served
    else
      var last := sensors[|sensors| - 1];
      var rest := ServeTick(served, sensors[..|sensors| - 1]);
      if last.overridden then rest else Serve(rest, last.id, !last.value)
  }

  function ServeFalse(served: map<NodeId, bool>, sensors: seq<Sensor>): map<NodeId, bool> {
    if sensors == [] then served
    else Serve(ServeFalse(served, sensors[..|sensors| - 1]), sensors[|sensors| - 1].id, false)
  }

  /** Enabling writes the flag's node, if there is one, and disabling then every sensor's. */
  function ServeSwitch(served: map<NodeId, bool>, node: Option<NodeId>, sensors: seq<Sensor>, on: bool): map<NodeId,
    bool> {
    var flagged := if node.Some? then Serve(served, node.value, on) else served;
    if on then flagged else ServeFalse(flagged, sensors)
  }

  function StepServed(s: Sim, e: Event): map<NodeId, bool> {
    match e
    case Tick => if s.enabled then ServeTick(s.served, s.sensors) else s.served
    case WriteSensor(name, Bool(v)) => Serve(s.served, Named(name), v)
    case SetEnabled(on) => ServeSwitch(s.served, s.node, s.sensors, on)
    case WriteEnabled(Bool(on)) => ServeSwitch(s.served, s.node, s.sensors, on)
    case _ => s.served
  }

  /** The writes a tick collects: the node and the new value of each sensor not overridden. */
  function Writes(sensors: seq<Sensor>): seq<(NodeId, bool)> {
    if sensors == [] then []
    else
      var last := sensors[|sensors| - 1];
      Writes(sensors[..|sensors| - 1]) + WriteOf(last)
  }

  function WriteOf(x: Sensor): seq<(NodeId, bool)> {
    if x.overridden then [] else [(x.id, !x.value)]
  }

  lemma {:induction false} FewWrites(sensors: seq<Sensor>)
    ensures |Writes(sensors)| <= |sensors|
    ensures (forall i :: 0 <= i < |sensors| ==> !sensors[i].overridden) ==> |Writes(sensors)| == |sensors|
  {
    if sensors != [] {
      FewWrites(sensors[..|sensors| - 1]);
    }
  }

  lemma {:induction false} WritesGrow(sensors: seq<Sensor>, i: nat)
    requires i < |sensors|
    ensures Writes(sensors[..i + 1]) == Writes(sensors[..i]) + WriteOf(sensors[i])
    ensures |Writes(sensors[..i + 1])| <= |Writes(sensors)|
    decreases |sensors|
  {
    var init := sensors[..|sensors| - 1];
    assert sensors[..i + 1][..i] == sensors[..i];
    if i < |init| {
      assert init[..i + 1] == sensors[..i + 1] && init[..i] == sensors[..i];
      WritesGrow(init, i);
    } else {
      assert sensors[..i + 1] == sensors;
    }
  }

  /** The arrays of 256 in which the locked parts collect what to write after the lock suffice. */
  predicate Buffered(s: Sim, e: Event) {
    match e
    case Tick => s.enabled ==> |Writes(s.sensors)| <= MAX_NODES
    case SetEnabled(_) => |s.sensors| <= MAX_NODES
    case WriteEnabled(Bool(_)) => |s.sensors| <= MAX_NODES
    case _ => true
  }

  /** They suffice for every event exactly when there are at most 256 sensors. */
  lemma BufferedIff(s: Sim)
    ensures (forall e :: Buffered(s, e)) <==> |s.sensors| <= MAX_NODES
  {
    FewWrites(s.sensors);
    if forall e :: Buffered(s, e) {
      assert Buffered(s, SetEnabled(true));
    }
  }

  /** The events that set the enable flag. */
  function EnableVerdict(e: Event): Option<bool> {
    match e
    case SetEnabled(on) => Some(on)
    case WriteEnabled(Bool(on)) => Some(on)
    case _ => None
  }

  /** One event.  The name of the sensor a client writes is that of the node it addresses. */
  function Step(s: Sim, e: Event): Sim {
    Sim(if EnableVerdict(e).Some? then EnableVerdict(e).value else s.enabled,
        s.node, StepSensors(s.sensors, s.enabled, e), StepServed(s, e))
  }

  function Run(s: Sim, trace: seq<Event>): Sim {
    if trace == [] then s else Step(Run(s, trace[..|trace| - 1]), trace[|trace| - 1])
  }

  // ---------- what a trace says, without running it ----------

  /** The verdict of the last event that has one. */
  function Last(trace: seq<Event>, verdict: Event -> Option<bool>, start: bool): bool {
    if trace == [] then start
    else match verdict(trace[|trace| - 1])
      case Some(b) => b
      case None => Last(trace[..|trace| - 1], verdict, start)
  }

  /** A write overrides; a reset and either enable path end all overrides. */
  function OverrideVerdict(e: Event, name: string): Option<bool> {
    match e
    case WriteSensor(n, Bool(_)) => if n == name then Some(true) else None
    case ResetOverrides => Some(false)
    case _ => if EnableVerdict(e).Some? then Some(false) else None
  }

  /** The events that give a sensor a value outright: a write to it, and any disable. */
  function AssignVerdict(e: Event, name: string): Option<bool> {
    match e
    case WriteSensor(n, Bool(v)) => if n == name then Some(v) else None
    case _ => if EnableVerdict(e) == Some(false) then Some(false) else None
  }

  predicate EnabledAfter(s: Sim, trace: seq<Event>) {
    Last(trace, EnableVerdict, s.enabled)
  }

  predicate OverriddenAfter(start: Sensor, trace: seq<Event>) {
    Last(trace, e => OverrideVerdict(e, start.name), start.overridden)
  }

  /** The ticks at position `from` or later that reach the sensor: those taken while the
      simulation is enabled and the sensor is not overridden. */
  function Toggles(s: Sim, start: Sensor, trace: seq<Event>, from: nat): nat
    requires from <= |trace|
    decreases |trace|
  {
    if from == |trace| then 0
    else
      var before := trace[..|trace| - 1];
      Toggles(s, start, before, from)
      + (if trace[|trace| - 1] == Tick && EnabledAfter(s, before) && !OverriddenAfter(start, before) then 1 else 0)
  }

  // ---------- the steps follow the trace ----------

  lemma StepFlags(s: Sim, e: Event, i: nat)
    requires i < |s.sensors|
    ensures |Step(s, e).sensors| == |s.sensors|
    ensures Step(s, e).sensors[i].name == s.sensors[i].name && Step(s, e).sensors[i].id == s.sensors[i].id
    ensures match OverrideVerdict(e, s.sensors[i].name)
            case Some(b) => Step(s, e).sensors[i].overridden == b
            case None => Step(s, e).sensors[i].overridden == s.sensors[i].overridden
  {
  }

  lemma {:induction false} RunFlags(s: Sim, trace: seq<Event>, i: nat)
    requires i < |s.sensors|
    ensures |Run(s, trace).sensors| == |s.sensors|
    ensures Run(s, trace).enabled == EnabledAfter(s, trace)
    ensures Run(s, trace).sensors[i].name == s.sensors[i].name && Run(s, trace).sensors[i].id == s.sensors[i].id
    ensures Run(s, trace).sensors[i].overridden == OverriddenAfter(s.sensors[i], trace)
  {
    if trace != [] {
      RunFlags(s, trace[..|trace| - 1], i);
      StepFlags(Run(s, trace[..|trace| - 1]), trace[|trace| - 1], i);
    }
  }

  lemma StepValue(x: Sensor, enabled: bool, e: Event)
    ensures match AssignVerdict(e, x.name)
            case Some(v) => SensorStep(x, enabled, e).value == v
            case None => SensorStep(x, enabled, e).value == (x.value != (e == Tick && enabled && !x.overridden))
  {
  }

  lemma RunLast(s: Sim, trace: seq<Event>, i: nat)
    requires i < |s.sensors| && trace != []
    ensures var before := trace[..|trace| - 1];
      |Run(s, before).sensors| == |Run(s, trace).sensors| == |s.sensors|
      && Run(s, before).sensors[i].name == s.sensors[i].name
      && Run(s, before).sensors[i].overridden == OverriddenAfter(s.sensors[i], before)
      && Run(s, trace).sensors[i] == SensorStep(Run(s, before).sensors[i], EnabledAfter(s, before), trace[|trace| - 1])
  {
    RunFlags(s, trace, i);
    RunFlags(s, trace[..|trace| - 1], i);
  }

  predicate Odd(n: nat) {
    n % 2 == 1
  }

  /** For every trace, a sensor's value is the last value assigned to it (at creation when
      `from` is 0, else by the event before `from`), toggled once for each later tick that
      reaches it. */
  lemma {:induction false} ValueIsAssignedThenToggled(s: Sim, trace: seq<Event>, i: nat, from: nat, v: bool)
    requires i < |s.sensors| && from <= |trace|
    requires if from == 0 then v == s.sensors[i].value
             else AssignVerdict(trace[from - 1], s.sensors[i].name) == Some(v)
    requires forall k :: from <= k < |trace| ==> AssignVerdict(trace[k], s.sensors[i].name) == None
    ensures |Run(s, trace).sensors| == |s.sensors|
    ensures Run(s, trace).sensors[i].value == (v != Odd(Toggles(s, s.sensors[i], trace, from)))
    decreases |trace|
  {
    if trace != [] {
      var before, e := trace[..|trace| - 1], trace[|trace| - 1];
      RunLast(s, trace, i);
      var x := Run(s, before).sensors[i];
      StepValue(x, EnabledAfter(s, before), e);
      if from < |trace| {
        assert AssignVerdict(e, x.name) == None;
        assert forall k :: from <= k < |before| ==> before[k] == trace[k];
        assert from > 0 ==> before[from - 1] == trace[from - 1];
        ValueIsAssignedThenToggled(s, before, i, from, v);
      }
    }
  }

  // ---------- served values ----------

  /** Every sensor has its own node, which is not the one of the enable flag. */
  ghost predicate OwnNodes(s: Sim) {
    (forall i, j :: 0 <= i < j < |s.sensors| ==> s.sensors[i].name != s.sensors[j].name)
    && (forall x :: x in s.sensors ==> x.id == Named(x.name) && x.id in s.served && s.node != Some(x.id))
  }

  /** The server serves exactly the values the sensors hold. */
  ghost predicate ServesSensors(s: Sim) {
    forall x :: x in s.sensors ==> x.id in s.served && s.served[x.id] == x.value
  }

  lemma {:induction false} ServeFalseOnly(served: map<NodeId, bool>, sensors: seq<Sensor>)
    ensures ServeFalse(served, sensors).Keys == served.Keys
    ensures forall id :: id in served ==>
              ServeFalse(served, sensors)[id] == (served[id] && !exists x :: x in sensors && x.id == id)
  {
    if sensors != [] {
      var init := sensors[..|sensors| - 1];
      ServeFalseOnly(served, init);
      assert sensors == init + [sensors[|sensors| - 1]];
    }
  }

  lemma SwitchServes(s: Sim, on: bool)
    requires OwnNodes(s)
    ensures ServeSwitch(s.served, s.node, s.sensors, on).Keys == s.served.Keys
    ensures forall x :: x in s.sensors ==> ServeSwitch(s.served, s.node, s.sensors, on)[x.id] == (on && s.served[x.id])
    ensures s.node.Some? && s.node.value in s.served
      ==> ServeSwitch(s.served, s.node, s.sensors, on)[s.node.value] == on
  {
    ServeFalseOnly(if s.node.Some? then Serve(s.served, s.node.value, on) else s.served, s.sensors);
  }

  lemma {:induction false} ServeFalseAgain(served: map<NodeId, bool>, sensors: seq<Sensor>)
    requires forall i :: 0 <= i < |sensors| ==> sensors[i].id in served && !served[sensors[i].id]
    ensures ServeFalse(served, sensors) == served
  {
    if sensors != [] {
      ServeFalseAgain(served, sensors[..|sensors| - 1]);
    }
  }

  lemma SwitchTwice(s: Sim, on: bool)
    requires OwnNodes(s)
    ensures var t := Step(s, SetEnabled(on)); ServeSwitch(t.served, t.node, t.sensors, on) == t.served
  {
    var t := Step(s, SetEnabled(on));
    SwitchServes(s, on);
    assert s.node.Some? ==> Serve(t.served, s.node.value, on) == t.served;
    if !on {
      forall i | 0 <= i < |t.sensors| ensures t.sensors[i].id in t.served && !t.served[t.sensors[i].id] {
        assert s.sensors[i] in s.sensors && t.sensors[i].id == s.sensors[i].id;
      }
      ServeFalseAgain(t.served, t.sensors);
    }
  }

  /** The two enable paths do the same, and doing it twice does nothing more. */
  lemma EnablePathsAgree(s: Sim, on: bool)
    requires OwnNodes(s)
    ensures Step(s, SetEnabled(on)) == Step(s, WriteEnabled(Bool(on)))
    ensures Step(Step(s, SetEnabled(on)), SetEnabled(on)) == Step(s, SetEnabled(on))
  {
    SwitchTwice(s, on);
    assert StepSensors(s.sensors, s.enabled, SetEnabled(on))
      == StepSensors(s.sensors, s.enabled, WriteEnabled(Bool(on)));
    var t := Step(s, SetEnabled(on));
    assert StepSensors(t.sensors, t.enabled, SetEnabled(on)) == t.sensors;
  }

  lemma {:induction false} ServeTickOthers(served: map<NodeId, bool>, sensors: seq<Sensor>, id: NodeId)
    requires id in served && forall x :: x in sensors ==> x.id != id
    ensures ServeTick(served, sensors).Keys == served.Keys
    ensures ServeTick(served, sensors)[id] == served[id]
  {
    if sensors != [] {
      ServeTickOthers(served, sensors[..|sensors| - 1], id);
    }
  }

  lemma {:induction false} ServeTickAt(served: map<NodeId, bool>, sensors: seq<Sensor>, i: nat)
    requires i < |sensors| && sensors[i].id in served && served[sensors[i].id] == sensors[i].value
    requires forall k :: 0 <= k < |sensors| && k != i ==> sensors[k].id != sensors[i].id
    ensures ServeTick(served, sensors).Keys == served.Keys
    ensures ServeTick(served, sensors)[sensors[i].id] == SensorStep(sensors[i], true, Tick).value
  {
    var init := sensors[..|sensors| - 1];
    if i < |init| {
      ServeTickAt(served, init, i);
    } else {
      ServeTickOthers(served, init, sensors[i].id);
    }
  }

  lemma TickServes(s: Sim, i: nat)
    requires OwnNodes(s) && ServesSensors(s) && i < |s.sensors|
    ensures ServeTick(s.served, s.sensors).Keys == s.served.Keys
    ensures ServeTick(s.served, s.sensors)[s.sensors[i].id] == SensorStep(s.sensors[i], true, Tick).value
  {
    assert forall k :: 0 <= k < |s.sensors| ==> s.sensors[k] in s.sensors;
    ServeTickAt(s.served, s.sensors, i);
  }

  lemma StepServesOne(s: Sim, e: Event, i: nat)
    requires OwnNodes(s) && ServesSensors(s) && i < |s.sensors|
    ensures var x := SensorStep(s.sensors[i], s.enabled, e);
      x.id == s.sensors[i].id && x.name == s.sensors[i].name && x.id in StepServed(s, e)
        && StepServed(s, e)[x.id] == x.value
  {
    assert s.sensors[i] in s.sensors;
    if e.Tick? {
      TickServes(s, i);
    } else if EnableVerdict(e).Some? {
      SwitchServes(s, EnableVerdict(e).value);
    }
  }

  lemma StepServes(s: Sim, e: Event)
    requires OwnNodes(s) && ServesSensors(s)
    ensures OwnNodes(Step(s, e)) && ServesSensors(Step(s, e))
  {
    var t := Step(s, e);
    forall i | 0 <= i < |s.sensors|
      ensures t.sensors[i].id == s.sensors[i].id && t.sensors[i].name == s.sensors[i].name
      ensures s.sensors[i] in s.sensors
      ensures t.sensors[i].id in t.served && t.served[t.sensors[i].id] == t.sensors[i].value
    {
      StepServesOne(s, e, i);
    }
  }

  /** In every sequential run the served values and the sensors' own values agree. */
  lemma {:induction false} RunServes(s: Sim, trace: seq<Event>)
    requires OwnNodes(s) && ServesSensors(s)
    ensures OwnNodes(Run(s, trace)) && ServesSensors(Run(s, trace))
  {
    if trace != [] {
      RunServes(s, trace[..|trace| - 1]);
      StepServes(Run(s, trace[..|trace| - 1]), trace[|trace| - 1]);
    }
  }

  lemma FlagStep(s: Sim, e: Event)
    requires OwnNodes(s) && ServesSensors(s) && s.node.Some? && s.node.value in s.served
    requires e.WriteSensor? ==> s.node.value != Named(e.name)
    ensures Step(s, e).node == s.node && s.node.value in Step(s, e).served
    ensures Step(s, e).served[s.node.value]
         == match EnableVerdict(e) case Some(b) => b case None => s.served[s.node.value]
  {
    if e.Tick? {
      ServeTickOthers(s.served, s.sensors, s.node.value);
    } else if EnableVerdict(e).Some? {
      SwitchServes(s, EnableVerdict(e).value);
    }
  }

  /** The node of the enable flag is created serving false while the flag starts true, so what
      it serves is right exactly from the first enable or disable on. */
  lemma {:induction false} FlagIsServedOnceSet(s: Sim, trace: seq<Event>)
    requires OwnNodes(s) && ServesSensors(s) && s.node.Some? && s.node.value in s.served
    requires s.enabled && !s.served[s.node.value]
    requires forall k :: 0 <= k < |trace| ==> trace[k].WriteSensor? ==> s.node.value != Named(trace[k].name)
    ensures Run(s, trace).node == s.node && s.node.value in Run(s, trace).served
    ensures (Run(s, trace).served[s.node.value] == Run(s, trace).enabled)
       <==> exists k :: 0 <= k < |trace| && EnableVerdict(trace[k]).Some?
  {
    if trace != [] {
      var before, e := trace[..|trace| - 1], trace[|trace| - 1];
      FlagIsServedOnceSet(s, before);
      RunServes(s, before);
      FlagStep(Run(s, before), e);
      if k :| 0 <= k < |before| && EnableVerdict(before[k]).Some? {
        assert EnableVerdict(trace[k]).Some?;
      }
      if k :| 0 <= k < |trace| && EnableVerdict(trace[k]).Some? && k != |trace| - 1 {
        assert EnableVerdict(before[k]).Some?;
      }
    }
  }
}

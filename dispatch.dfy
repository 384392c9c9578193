/**
 * Inbound dispatch as values: which calls a listener receives for a message
 * according to the listener interfaces it implements, how an uncaught
 * listener exception cuts the dispatch short, and the ten optional host
 * methods (slots) with their Unbound / Active / Disabled states.
 */
module Dispatch {
  import opened Wrappers
  import opened MidiBytes

  /** The listener interfaces: RawMidiListener, SimpleMidiListener, StandardMidiListener. */
  datatype Capability = Raw | Simple | Standard

  /** A registered listener, compared by reference as the registry compares it. */
  class Listener {
    const caps: set<Capability>

    constructor (caps: set<Capability>)
      ensures this.caps == caps
    {
      this.caps := caps;
    }
  }

  /** A call made on a listener or on a host method, with its arguments. */
  datatype Callback =
    | RawMidi(data: Message)
    | NoteOn(channel: int, pitch: int, velocity: int)
    | NoteOff(channel: int, pitch: int, velocity: int)
    | ControllerChange(channel: int, number: int, value: int)
    | MidiMessage(message: Message)

  /** The five optional host methods. */
  datatype Handler = NoteOnMethod | NoteOffMethod | ControllerChangeMethod | RawMidiMethod | MidiMessageMethod

  /** A host method in its plain form or its form with a trailing bus name: ten slots in all. */
  datatype Slot = Slot(handler: Handler, withBusName: bool)

  /** Unbound: the host has no such method. Active: bound. Disabled: bound, but it threw once. */
  datatype SlotState = Unbound | Active | Disabled

  const AllSlots: set<Slot> := {
    Slot(NoteOnMethod, false), Slot(NoteOnMethod, true),
    Slot(NoteOffMethod, false), Slot(NoteOffMethod, true),
    Slot(ControllerChangeMethod, false), Slot(ControllerChangeMethod, true),
    Slot(RawMidiMethod, false), Slot(RawMidiMethod, true),
    Slot(MidiMessageMethod, false), Slot(MidiMessageMethod, true)
  }

  lemma EverySlotIsKnown(s: Slot)
    ensures s in AllSlots
  {
    match s.handler
    case NoteOnMethod =>
    case NoteOffMethod =>
    case ControllerChangeMethod =>
    case RawMidiMethod =>
    case MidiMessageMethod =>
  }

  /** One observable call made during inbound dispatch. */
  datatype Event =
    | ToListener(listener: Listener, call: Callback)
    | ToHost(slot: Slot, call: Callback, busName: Option<string>)

  /**
   * The SimpleMidiListener call for a message, chosen by its command nibble:
   * note-on, note-off or controller change with the channel nibble and the two
   * data bytes; any other message gets none.
   */
  function SimpleCall(m: Message): (r: Option<Callback>)
    requires WellFormed(m)
    ensures r.Some? <==> CarriesTwoDataBytes(m[0])
    ensures r.Some? ==> (r.value.NoteOn? || r.value.NoteOff? || r.value.ControllerChange?) && r.value.channel == Channel(m[0])
    ensures r.Some? ==> (r.value.NoteOn? <==> Command(m[0]) == NOTE_ON) && (r.value.NoteOff? <==> Command(m[0]) == NOTE_OFF)
  {
    var command := Command(m[0]);
    if command == NOTE_ON then Some(NoteOn(Channel(m[0]), m[1], m[2]))
    else if command == NOTE_OFF then Some(NoteOff(Channel(m[0]), m[1], m[2]))
    else if command == CONTROL_CHANGE then Some(ControllerChange(Channel(m[0]), m[1], m[2]))
    else None
  }

  /**
   * A channel-voice message the bus sends is read back by an inbound listener
   * as the same call: the outbound encoding and the inbound decoding agree.
   */
  lemma SimpleCallDecodesChannelVoice(channel: int, data1: Byte, data2: Byte)
    requires 0 <= channel < 16 && IsData(data1) && IsData(data2)
    ensures SimpleCall(ChannelVoice(NOTE_ON, channel, data1, data2)) == Some(NoteOn(channel, data1, data2))
    ensures SimpleCall(ChannelVoice(NOTE_OFF, channel, data1, data2)) == Some(NoteOff(channel, data1, data2))
    ensures SimpleCall(ChannelVoice(CONTROL_CHANGE, channel, data1, data2)) == Some(ControllerChange(channel, data1, data2))
  {
  }

  /** The calls one listener receives for a message: Raw, then Simple, then Standard. */
  function ListenerCalls(l: Listener, m: Message): (r: seq<Event>)
    requires WellFormed(m)
    ensures forall e | e in r :: e.ToListener? && e.listener == l && e.call in Entitled(l.caps, m)
  {
    (if Raw in l.caps then [ToListener(l, RawMidi(m))] else []) +
    (if Simple in l.caps && SimpleCall(m).Some? then [ToListener(l, SimpleCall(m).value)] else []) +
    (if Standard in l.caps then [ToListener(l, MidiMessage(m))] else [])
  }

  /** The calls a message gives rise to, listener by listener in registration order. */
  function AllListenerCalls(ls: seq<Listener>, m: Message): (r: seq<Event>)
    requires WellFormed(m)
    ensures forall e | e in r :: e.ToListener? && e.listener in ls
  {
    if ls == [] then [] else AllListenerCalls(ls[..|ls| - 1], m) + ListenerCalls(ls[|ls| - 1], m)
  }

  /** The calls a listener with these capabilities is entitled to for a message. */
  function Entitled(caps: set<Capability>, m: Message): set<Callback>
    requires WellFormed(m)
  {
    (if Raw in caps then {RawMidi(m)} else {}) +
    (if Simple in caps && SimpleCall(m).Some? then {SimpleCall(m).value} else {}) +
    (if Standard in caps then {MidiMessage(m)} else {})
  }

  /**
   * Every listener call goes to a registered listener and is one it is
   * entitled to by its interfaces, and every registered listener receives
   * every call it is entitled to.
   */
  lemma {:induction false} ListenerCallsAreEntitled(ls: seq<Listener>, m: Message, e: Event)
    requires WellFormed(m)
    ensures e in AllListenerCalls(ls, m) <==>
      e.ToListener? && e.listener in ls && e.call in Entitled(e.listener.caps, m)
  {
    if ls != [] {
      var init, last := ls[..|ls| - 1], ls[|ls| - 1];
      ListenerCallsAreEntitled(init, m, e);
      assert ls == init + [last];
      ListenerCallsOfOne(last, m, e);
      assert e in AllListenerCalls(ls, m) <==> e in AllListenerCalls(init, m) || e in ListenerCalls(last, m);
    }
  }

  /** The calls one listener receives are exactly those it is entitled to. */
  lemma ListenerCallsOfOne(l: Listener, m: Message, e: Event)
    requires WellFormed(m)
    ensures e in ListenerCalls(l, m) <==> e.ToListener? && e.listener == l && e.call in Entitled(l.caps, m)
  {
  }

  /** A listener that implements only RawMidiListener receives exactly the raw bytes. */
  lemma RawOnlyListener(m: Message)
    requires WellFormed(m)
    ensures Entitled({Raw}, m) == {RawMidi(m)}
  {
  }

  /** The calls for a non-empty list: those for all but the last listener, then the last one's. */
  lemma AllListenerCallsSnoc(ls: seq<Listener>, m: Message)
    requires WellFormed(m) && ls != []
    ensures AllListenerCalls(ls, m) == AllListenerCalls(ls[..|ls| - 1], m) + ListenerCalls(ls[|ls| - 1], m)
  {
  }

  /** The calls for the first `j` listeners come before those for the rest: registration order. */
  lemma {:induction false} AllListenerCallsSplit(ls: seq<Listener>, j: nat, m: Message)
    requires WellFormed(m) && j <= |ls|
    ensures AllListenerCalls(ls, m) == AllListenerCalls(ls[..j], m) + AllListenerCalls(ls[j..], m)
  {
    if j < |ls| {
      var n := |ls|;
      var init, rest := ls[..n - 1], ls[j..];
      AllListenerCallsSplit(init, j, m);
      assert init[..j] == ls[..j];
      assert rest[..|rest| - 1] == init[j..];
      assert rest[|rest| - 1] == ls[n - 1];
      AllListenerCallsSnoc(rest, m);
      AllListenerCallsSnoc(ls, m);
    } else {
      assert ls[..j] == ls;
    }
  }

  /**
   * Calls made one after another until the first one that throws, which is
   * made and then ends the dispatch: the calls made, and whether none threw.
   */
  function UntilFault<T>(calls: seq<T>, faults: set<T>): (r: (seq<T>, bool))
    ensures r.0 <= calls
    ensures r.1 <==> forall e | e in calls :: e !in faults
    ensures r.1 ==> r.0 == calls
    ensures !r.1 ==> |r.0| > 0 && r.0[|r.0| - 1] in faults && forall i | 0 <= i < |r.0| - 1 :: r.0[i] !in faults
  {
    if calls == [] then ([], true)
    else if calls[0] in faults then ([calls[0]], false)
    else
      var rest := UntilFault(calls[1..], faults);
      assert calls == [calls[0]] + calls[1..];
      ([calls[0]] + rest.0, rest.1)
  }

  /** Dispatching `a + b` is dispatching `a` and, if nothing threw, then `b`. */
  lemma {:induction false} UntilFaultAppend<T>(a: seq<T>, b: seq<T>, faults: set<T>)
    ensures UntilFault(a + b, faults) ==
      if UntilFault(a, faults).1 then (a + UntilFault(b, faults).0, UntilFault(b, faults).1)
      else UntilFault(a, faults)
  {
    if a != [] {
      assert (a + b)[0] == a[0];
      assert (a + b)[1..] == a[1..] + b;
      if a[0] !in faults {
        UntilFaultAppend(a[1..], b, faults);
        var rest := UntilFault(a[1..], faults);
        var restAB := UntilFault(a[1..] + b, faults);
        assert UntilFault(a + b, faults) == ([a[0]] + restAB.0, restAB.1);
        assert UntilFault(a, faults) == ([a[0]] + rest.0, rest.1);
        if rest.1 {
          assert a == [a[0]] + a[1..];
          assert [a[0]] + (rest.0 + UntilFault(b, faults).0) == a + UntilFault(b, faults).0;
        } else {
          assert restAB == rest;
        }
      } else {
        assert UntilFault(a + b, faults) == ([a[0]], false);
        assert UntilFault(a, faults) == ([a[0]], false);
      }
    } else {
      assert a + b == b;
      var rb := UntilFault(b, faults);
      assert a + rb.0 == rb.0;
      assert UntilFault(a, faults).1;
    }
  }

  /** One more call: made only if none before it threw, and it ends the dispatch if it throws. */
  lemma UntilFaultSnoc<T>(calls: seq<T>, e: T, faults: set<T>)
    ensures var r := UntilFault(calls, faults);
      UntilFault(calls + [e], faults) == if r.1 then (calls + [e], e !in faults) else r
  {
    UntilFaultAppend(calls, [e], faults);
    assert [e][1..] == [];
  }

  /** The call a slot receives, with the bus name current at that moment when it takes one. */
  function Invocation(s: Slot, c: Callback, name: string): (e: Event)
    ensures e.ToHost? && e.slot == s && e.call == c
    ensures e.busName.Some? <==> s.withBusName
    ensures e.busName.Some? ==> e.busName.value == name
  {
    ToHost(s, c, if s.withBusName then Some(name) else None)
  }

  /** Whether a host method is meant to fire for a message: the typed ones only for their command nibble. */
  predicate Fires(h: Handler, m: Message)
    requires WellFormed(m)
  {
    match h
    case NoteOnMethod => Command(m[0]) == NOTE_ON
    case NoteOffMethod => Command(m[0]) == NOTE_OFF
    case ControllerChangeMethod => Command(m[0]) == CONTROL_CHANGE
    case RawMidiMethod => true
    case MidiMessageMethod => true
  }

  /** The host method that takes a given typed call. */
  function HandlerFor(c: Callback): Handler {
    match c
    case NoteOn(_, _, _) => NoteOnMethod
    case NoteOff(_, _, _) => NoteOffMethod
    case ControllerChange(_, _, _) => ControllerChangeMethod
    case RawMidi(_) => RawMidiMethod
    case MidiMessage(_) => MidiMessageMethod
  }

  /** The typed host methods `notifyPApplet` tries for a message: the plain then the bus-name form. */
  function TypedPlan(m: Message): (r: seq<(Slot, Callback)>)
    requires WellFormed(m)
    ensures |r| == if CarriesTwoDataBytes(m[0]) then 2 else 0
    ensures forall i | 0 <= i < |r| :: SimpleCall(m) == Some(r[i].1) && r[i].0.handler == HandlerFor(r[i].1) && Fires(r[i].0.handler, m)
    ensures |r| == 2 ==> !r[0].0.withBusName && r[1].0.withBusName
  {
    match SimpleCall(m)
    case Some(c) => [(Slot(HandlerFor(c), false), c), (Slot(HandlerFor(c), true), c)]
    case None => []
  }

  /**
   * The slots `notifyPApplet` tries, in its order, with the call each would
   * receive: the typed methods matching the command nibble, then rawMidi in
   * both forms, then midiMessage in both forms.
   */
  function HostPlan(m: Message): (r: seq<(Slot, Callback)>)
    requires WellFormed(m)
    ensures |r| == if CarriesTwoDataBytes(m[0]) then 6 else 4
    ensures r[|r| - 4].1 == RawMidi(m) && r[|r| - 1].1 == MidiMessage(m)
  {
    TypedPlan(m) + [(Slot(RawMidiMethod, false), RawMidi(m)), (Slot(RawMidiMethod, true), RawMidi(m)),
                    (Slot(MidiMessageMethod, false), MidiMessage(m)), (Slot(MidiMessageMethod, true), MidiMessage(m))]
  }

  predicate DistinctSlots(plan: seq<(Slot, Callback)>) {
    forall i, j | 0 <= i < j < |plan| :: plan[i].0 != plan[j].0
  }

  /** The slots a plan tries. */
  function PlanSlots(plan: seq<(Slot, Callback)>): set<Slot> {
    set i | 0 <= i < |plan| :: plan[i].0
  }

  /** The plan, entry by entry: the typed pair when the command has one, then the four generic slots. */
  lemma HostPlanShape(m: Message)
    requires WellFormed(m)
    ensures var plan := HostPlan(m); var k := |plan| - 4;
      (k == 0 || k == 2) && (k == 2 <==> SimpleCall(m).Some?) &&
      plan[k] == (Slot(RawMidiMethod, false), RawMidi(m)) &&
      plan[k + 1] == (Slot(RawMidiMethod, true), RawMidi(m)) &&
      plan[k + 2] == (Slot(MidiMessageMethod, false), MidiMessage(m)) &&
      plan[k + 3] == (Slot(MidiMessageMethod, true), MidiMessage(m)) &&
      (k == 2 ==> var c := SimpleCall(m).value;
         HandlerFor(c) != RawMidiMethod && HandlerFor(c) != MidiMessageMethod && Fires(HandlerFor(c), m) &&
         plan[0] == (Slot(HandlerFor(c), false), c) && plan[1] == (Slot(HandlerFor(c), true), c))
  {
  }

  /**
   * The plan tries each slot at most once, only slots meant to fire for the
   * message and every one of them, and gives each the call its host method
   * takes: the raw bytes, the whole message, or the decoded typed call.
   */
  lemma HostPlanMatchesStatus(m: Message)
    requires WellFormed(m)
    ensures DistinctSlots(HostPlan(m))
    ensures var plan := HostPlan(m);
      forall i | 0 <= i < |plan| ::
        Fires(plan[i].0.handler, m) && HandlerFor(plan[i].1) == plan[i].0.handler &&
        (plan[i].1 == RawMidi(m) || plan[i].1 == MidiMessage(m) || SimpleCall(m) == Some(plan[i].1))
    ensures forall s :: s in PlanSlots(HostPlan(m)) <==> Fires(s.handler, m)
  {
    var plan := HostPlan(m);
    var k := |plan| - 4;
    HostPlanShape(m);
    forall i | 0 <= i < |plan|
      ensures Fires(plan[i].0.handler, m) && HandlerFor(plan[i].1) == plan[i].0.handler &&
        (plan[i].1 == RawMidi(m) || plan[i].1 == MidiMessage(m) || SimpleCall(m) == Some(plan[i].1))
    {
      if i < k {
        assert i == 0 || i == 1;
      } else {
        assert i == k || i == k + 1 || i == k + 2 || i == k + 3;
      }
    }
    forall s ensures s in PlanSlots(plan) <==> Fires(s.handler, m) {
      if Fires(s.handler, m) {
        var j := if s.handler == RawMidiMethod then k + (if s.withBusName then 1 else 0)
          else if s.handler == MidiMessageMethod then k + (if s.withBusName then 3 else 2)
          else if s.withBusName then 1 else 0;
        if s.handler != RawMidiMethod && s.handler != MidiMessageMethod {
          assert SimpleCall(m).Some? && HandlerFor(SimpleCall(m).value) == s.handler;
        }
        assert plan[j].0 == s;
      }
      if s in PlanSlots(plan) {
        var i :| 0 <= i < |plan| && plan[i].0 == s;
      }
    }
  }

  /** One slot's turn: an Active slot is invoked, and disabled if the invocation throws. */
  function Step(slots: map<Slot, SlotState>, s: Slot, c: Callback, name: string, failing: set<Slot>)
    : (r: (seq<Event>, map<Slot, SlotState>))
    ensures r.1.Keys == slots.Keys
    ensures r.0 == (if s in slots && slots[s] == Active then [Invocation(s, c, name)] else [])
    ensures forall t | t in slots && t != s :: r.1[t] == slots[t]
    ensures s in slots ==> (r.1[s] == Disabled <==> slots[s] == Disabled || (slots[s] == Active && s in failing))
    ensures s in slots && slots[s] != Active ==> r.1[s] == slots[s]
  {
    if s in slots && slots[s] == Active then
      ([Invocation(s, c, name)], if s in failing then slots[s := Disabled] else slots)
    else ([], slots)
  }

  /** Trying the slots of a plan in order: the invocations made and the slot states afterwards. */
  function HostDispatch(slots: map<Slot, SlotState>, plan: seq<(Slot, Callback)>, name: string, failing: set<Slot>)
    : (r: (seq<Event>, map<Slot, SlotState>))
    ensures r.1.Keys == slots.Keys
    decreases |plan|
  {
    if plan == [] then ([], slots)
    else
      var prev := HostDispatch(slots, plan[..|plan| - 1], name, failing);
      var last := plan[|plan| - 1];
      var step := Step(prev.1, last.0, last.1, name, failing);
      (prev.0 + step.0, step.1)
  }

  /** Trying one more entry after a plan: the plan's invocations, then that entry's turn. */
  lemma HostDispatchSnoc(slots: map<Slot, SlotState>, plan: seq<(Slot, Callback)>, p: (Slot, Callback), name: string, failing: set<Slot>)
    ensures var prev := HostDispatch(slots, plan, name, failing);
      var step := Step(prev.1, p.0, p.1, name, failing);
      HostDispatch(slots, plan + [p], name, failing) == (prev.0 + step.0, step.1)
  {
    assert (plan + [p])[..|plan|] == plan;
  }

  /** Independent reference: the invocations of the slots of a plan that are Active beforehand. */
  function ActiveInvocations(slots: map<Slot, SlotState>, plan: seq<(Slot, Callback)>, name: string): seq<Event>
  {
    if plan == [] then []
    else
      var last := plan[|plan| - 1];
      ActiveInvocations(slots, plan[..|plan| - 1], name) +
      (if last.0 in slots && slots[last.0] == Active then [Invocation(last.0, last.1, name)] else [])
  }

  /** Independent reference: the Active slots of the plan that throw become Disabled, nothing else changes. */
  function SlotsAfter(slots: map<Slot, SlotState>, plan: seq<(Slot, Callback)>, failing: set<Slot>): map<Slot, SlotState> {
    map s | s in slots :: if slots[s] == Active && s in failing && s in PlanSlots(plan) then Disabled else slots[s]
  }

  /** The slots of a plan are those of all but its last entry, plus that entry's. */
  lemma PlanSlotsSnoc(plan: seq<(Slot, Callback)>)
    requires plan != []
    ensures PlanSlots(plan) == PlanSlots(plan[..|plan| - 1]) + {plan[|plan| - 1].0}
  {
    var init := plan[..|plan| - 1];
    forall s ensures s in PlanSlots(plan) <==> s in PlanSlots(init) + {plan[|plan| - 1].0} {
      if s in PlanSlots(plan) {
        var i :| 0 <= i < |plan| && plan[i].0 == s;
        if i < |init| {
          assert init[i].0 == s;
        }
      }
      if s in PlanSlots(init) {
        var i :| 0 <= i < |init| && init[i].0 == s;
        assert plan[i].0 == s;
      }
    }
  }

  /** In a plan without repeated slots, the last entry's slot is not tried before it. */
  lemma DistinctSlotsSnoc(plan: seq<(Slot, Callback)>)
    requires plan != [] && DistinctSlots(plan)
    ensures DistinctSlots(plan[..|plan| - 1])
    ensures plan[|plan| - 1].0 !in PlanSlots(plan[..|plan| - 1])
  {
    var init := plan[..|plan| - 1];
    forall i | 0 <= i < |init| ensures init[i].0 != plan[|plan| - 1].0 {
      assert init[i] == plan[i];
    }
  }

  /** One more entry of a plan without repeated slots: its turn extends the reference by that slot alone. */
  lemma SlotsAfterSnoc(slots: map<Slot, SlotState>, plan: seq<(Slot, Callback)>, name: string, failing: set<Slot>)
    requires plan != [] && DistinctSlots(plan)
    requires forall i | 0 <= i < |plan| :: plan[i].0 in slots
    ensures var init, last := plan[..|plan| - 1], plan[|plan| - 1];
      var step := Step(SlotsAfter(slots, init, failing), last.0, last.1, name, failing);
      step.0 == (if slots[last.0] == Active then [Invocation(last.0, last.1, name)] else []) &&
      step.1 == SlotsAfter(slots, plan, failing)
  {
    var init, last := plan[..|plan| - 1], plan[|plan| - 1];
    assert last.0 in slots;
    DistinctSlotsSnoc(plan);
    PlanSlotsSnoc(plan);
    var before := SlotsAfter(slots, init, failing);
    var after := SlotsAfter(slots, plan, failing);
    assert before[last.0] == slots[last.0];
    if slots[last.0] == Active && last.0 in failing {
      assert before[last.0 := Disabled] == after;
    } else {
      assert before == after;
    }
  }

  /**
   * Because a plan tries each slot at most once, a failure disabling one slot
   * never affects another: dispatching is the same as invoking every slot that
   * was Active beforehand and then disabling the ones that threw.
   */
  lemma {:induction false} HostDispatchIsIsolated(slots: map<Slot, SlotState>, plan: seq<(Slot, Callback)>, name: string, failing: set<Slot>)
    requires forall i | 0 <= i < |plan| :: plan[i].0 in slots
    requires DistinctSlots(plan)
    ensures HostDispatch(slots, plan, name, failing) == (ActiveInvocations(slots, plan, name), SlotsAfter(slots, plan, failing))
  {
    if plan == [] {
      assert SlotsAfter(slots, plan, failing) == slots;
    } else {
      var init := plan[..|plan| - 1];
      DistinctSlotsSnoc(plan);
      HostDispatchIsIsolated(slots, init, name, failing);
      SlotsAfterSnoc(slots, plan, name, failing);
    }
  }

  /**
   * What the host sees of one message: each invocation goes to a slot that was
   * Active and is meant to fire for the message, carrying the bus name exactly
   * when the slot takes one; every such slot is invoked; and afterwards
   * exactly the invoked slots that threw are Disabled, every other slot keeping
   * its state.
   */
  lemma HostInvocations(slots: map<Slot, SlotState>, m: Message, name: string, failing: set<Slot>)
    requires slots.Keys == AllSlots && WellFormed(m)
    ensures var plan := HostPlan(m); forall i | 0 <= i < |plan| :: plan[i].0 in slots
    ensures var r := HostDispatch(slots, HostPlan(m), name, failing);
      forall e | e in r.0 ::
        e.ToHost? && e.slot in slots && slots[e.slot] == Active && Fires(e.slot.handler, m) &&
        HandlerFor(e.call) == e.slot.handler &&
        (e.call == RawMidi(m) || e.call == MidiMessage(m) || SimpleCall(m) == Some(e.call)) &&
        e.busName == (if e.slot.withBusName then Some(name) else None)
    ensures var r := HostDispatch(slots, HostPlan(m), name, failing);
      forall s | s in slots && slots[s] == Active && Fires(s.handler, m) :: exists e | e in r.0 :: e.ToHost? && e.slot == s
    ensures var r := HostDispatch(slots, HostPlan(m), name, failing);
      forall s | s in slots :: r.1[s] == if slots[s] == Active && s in failing && Fires(s.handler, m) then Disabled else slots[s]
  {
    var plan := HostPlan(m);
    forall i | 0 <= i < |plan| ensures plan[i].0 in slots {
      EverySlotIsKnown(plan[i].0);
    }
    HostPlanMatchesStatus(m);
    HostDispatchIsIsolated(slots, plan, name, failing);
    ActiveInvocationsMembers(slots, plan, name);
    var r := HostDispatch(slots, plan, name, failing);
    forall s | s in slots && slots[s] == Active && Fires(s.handler, m)
      ensures exists e | e in r.0 :: e.ToHost? && e.slot == s
    {
      assert s in PlanSlots(plan);
      var i :| 0 <= i < |plan| && plan[i].0 == s;
      assert Invocation(plan[i].0, plan[i].1, name) in r.0;
    }
  }

  /** The members of `ActiveInvocations`, index by index. */
  lemma {:induction false} ActiveInvocationsMembers(slots: map<Slot, SlotState>, plan: seq<(Slot, Callback)>, name: string)
    requires forall i | 0 <= i < |plan| :: plan[i].0 in slots
    ensures forall e | e in ActiveInvocations(slots, plan, name) ::
      exists i | 0 <= i < |plan| :: slots[plan[i].0] == Active && e == Invocation(plan[i].0, plan[i].1, name)
    ensures forall i | 0 <= i < |plan| && slots[plan[i].0] == Active ::
      Invocation(plan[i].0, plan[i].1, name) in ActiveInvocations(slots, plan, name)
  {
    if plan != [] {
      var init := plan[..|plan| - 1];
      ActiveInvocationsMembers(slots, init, name);
      forall e | e in ActiveInvocations(slots, plan, name)
        ensures exists i | 0 <= i < |plan| :: slots[plan[i].0] == Active && e == Invocation(plan[i].0, plan[i].1, name)
      {
        if e in ActiveInvocations(slots, init, name) {
          var i :| 0 <= i < |init| && slots[init[i].0] == Active && e == Invocation(init[i].0, init[i].1, name);
          assert plan[i] == init[i];
        } else {
          assert slots[plan[|plan| - 1].0] == Active;
        }
      }
      forall i | 0 <= i < |plan| && slots[plan[i].0] == Active
        ensures Invocation(plan[i].0, plan[i].1, name) in ActiveInvocations(slots, plan, name)
      {
        if i < |init| {
          assert init[i] == plan[i];
        }
      }
    }
  }

  /** A plan none of whose slots is Active gives rise to no invocation. */
  lemma {:induction false} NoActiveNoInvocations(slots: map<Slot, SlotState>, plan: seq<(Slot, Callback)>, name: string)
    requires forall i | 0 <= i < |plan| :: plan[i].0 in slots && slots[plan[i].0] != Active
    ensures ActiveInvocations(slots, plan, name) == []
  {
    if plan != [] {
      NoActiveNoInvocations(slots, plan[..|plan| - 1], name);
    }
  }

  /** A plan with exactly one Active entry gives rise to exactly that entry's invocation. */
  lemma {:induction false} ActiveInvocationsOfOne(slots: map<Slot, SlotState>, plan: seq<(Slot, Callback)>, name: string, k: nat)
    requires forall i | 0 <= i < |plan| :: plan[i].0 in slots
    requires k < |plan| && forall i | 0 <= i < |plan| :: slots[plan[i].0] == Active <==> i == k
    ensures ActiveInvocations(slots, plan, name) == [Invocation(plan[k].0, plan[k].1, name)]
  {
    var init := plan[..|plan| - 1];
    if k == |plan| - 1 {
      NoActiveNoInvocations(slots, init, name);
    } else {
      ActiveInvocationsOfOne(slots, init, name, k);
    }
  }

  /** A host with only `rawMidi(byte[])`: every message makes exactly one host call, to it. */
  lemma OnlyRawMidiBound(slots: map<Slot, SlotState>, m: Message, name: string, failing: set<Slot>)
    requires slots.Keys == AllSlots && WellFormed(m)
    requires forall s | s in slots :: slots[s] == if s == Slot(RawMidiMethod, false) then Active else Unbound
    ensures var plan := HostPlan(m); forall i | 0 <= i < |plan| :: plan[i].0 in slots
    ensures HostDispatch(slots, HostPlan(m), name, failing).0 == [ToHost(Slot(RawMidiMethod, false), RawMidi(m), None)]
  {
    var plan := HostPlan(m);
    forall i | 0 <= i < |plan| ensures plan[i].0 in slots {
      EverySlotIsKnown(plan[i].0);
    }
    HostPlanShape(m);
    HostPlanMatchesStatus(m);
    HostDispatchIsIsolated(slots, plan, name, failing);
    var k := |plan| - 4;
    forall i | 0 <= i < |plan| ensures slots[plan[i].0] == Active <==> i == k {
      if i != k {
        assert plan[i].0 != plan[k].0 by {
          if i < k { assert i < k; } else { assert k < i; }
        }
      }
    }
    ActiveInvocationsOfOne(slots, plan, name, k);
  }

  /** One message arriving at the host, with the bus name at that moment and the slots that throw on it. */
  datatype Arrival = Arrival(message: Message, busName: string, failing: set<Slot>)

  /** A run of arrivals at the host, one after another: all invocations made, and the slot states at the end. */
  function HostSession(slots: map<Slot, SlotState>, arrivals: seq<Arrival>): (r: (seq<Event>, map<Slot, SlotState>))
    requires slots.Keys == AllSlots
    requires forall i | 0 <= i < |arrivals| :: WellFormed(arrivals[i].message)
    ensures r.1.Keys == AllSlots
    decreases |arrivals|
  {
    if arrivals == [] then ([], slots)
    else
      var a := arrivals[0];
      var first := HostDispatch(slots, HostPlan(a.message), a.busName, a.failing);
      var rest := HostSession(first.1, arrivals[1..]);
      (first.0 + rest.0, rest.1)
  }

  /** A slot that is not Active is never invoked again and keeps its state for the rest of the run. */
  lemma {:induction false} InactiveSlotStaysSilent(slots: map<Slot, SlotState>, arrivals: seq<Arrival>, s: Slot)
    requires slots.Keys == AllSlots
    requires forall i | 0 <= i < |arrivals| :: WellFormed(arrivals[i].message)
    requires s in slots && slots[s] != Active
    ensures var r := HostSession(slots, arrivals);
      r.1[s] == slots[s] && forall e | e in r.0 :: !(e.ToHost? && e.slot == s)
    decreases |arrivals|
  {
    if arrivals != [] {
      var a := arrivals[0];
      HostInvocations(slots, a.message, a.busName, a.failing);
      var first := HostDispatch(slots, HostPlan(a.message), a.busName, a.failing);
      InactiveSlotStaysSilent(first.1, arrivals[1..], s);
    }
  }

  /**
   * A slot that throws when invoked for one message is invoked for that
   * message, is Disabled afterwards, and is never invoked for any later
   * message; every other slot keeps its state across that failure.
   */
  lemma {:induction false} FaultDisablesForever(slots: map<Slot, SlotState>, first: Arrival, later: seq<Arrival>, s: Slot)
    requires slots.Keys == AllSlots && WellFormed(first.message)
    requires forall i | 0 <= i < |later| :: WellFormed(later[i].message)
    requires s in slots && slots[s] == Active && Fires(s.handler, first.message) && s in first.failing
    ensures var now := HostDispatch(slots, HostPlan(first.message), first.busName, first.failing);
      (exists e | e in now.0 :: e.ToHost? && e.slot == s) &&
      now.1[s] == Disabled &&
      (forall t | t in slots && t != s && t !in first.failing :: now.1[t] == slots[t]) &&
      forall e | e in HostSession(now.1, later).0 :: !(e.ToHost? && e.slot == s)
  {
    HostInvocations(slots, first.message, first.busName, first.failing);
    var now := HostDispatch(slots, HostPlan(first.message), first.busName, first.failing);
    InactiveSlotStaysSilent(now.1, later, s);
  }

  /**
   * `MReceiver.send` on a message already normalised: listeners first, and,
   * only if no listener threw, the host slots. The calls made and the slot
   * states afterwards.
   */
  function Deliver(ls: seq<Listener>, slots: map<Slot, SlotState>, m: Message, name: string,
                   listenerFaults: set<Event>, hostFaults: set<Slot>): (r: (seq<Event>, map<Slot, SlotState>))
    requires WellFormed(m)
    ensures r.1.Keys == slots.Keys
    ensures UntilFault(AllListenerCalls(ls, m), listenerFaults).0 <= r.0
    ensures !UntilFault(AllListenerCalls(ls, m), listenerFaults).1 ==>
      r.1 == slots && forall e | e in r.0 :: e.ToListener?
    ensures !UntilFault(AllListenerCalls(ls, m), listenerFaults).1 ==>
      r == (UntilFault(AllListenerCalls(ls, m), listenerFaults).0, slots)
    ensures UntilFault(AllListenerCalls(ls, m), listenerFaults).1 ==>
      var host := HostDispatch(slots, HostPlan(m), name, hostFaults);
      r == (AllListenerCalls(ls, m) + host.0, host.1)
  {
    var (heard, ok) := UntilFault(AllListenerCalls(ls, m), listenerFaults);
    if !ok then (heard, slots)
    else
      var host := HostDispatch(slots, HostPlan(m), name, hostFaults);
      (heard + host.0, host.1)
  }

  /** The property every observed call of a normalised silent note-on has. */
  predicate HeardAsNoteOff(c: Callback, channel: int, pitch: int) {
    !c.NoteOn? && (c.NoteOff? ==> c == NoteOff(channel, pitch, 0))
  }

  lemma SilentAllListenerCalls(ls: seq<Listener>, n: Message, channel: int, pitch: int)
    requires WellFormed(n) && SimpleCall(n) == Some(NoteOff(channel, pitch, 0))
    ensures forall e | e in AllListenerCalls(ls, n) :: HeardAsNoteOff(e.call, channel, pitch)
  {
    forall e | e in AllListenerCalls(ls, n) ensures HeardAsNoteOff(e.call, channel, pitch) {
      ListenerCallsAreEntitled(ls, n, e);
    }
  }

  lemma SilentListenerCalls(ls: seq<Listener>, n: Message, channel: int, pitch: int, faults: set<Event>)
    requires WellFormed(n) && SimpleCall(n) == Some(NoteOff(channel, pitch, 0))
    ensures forall e | e in UntilFault(AllListenerCalls(ls, n), faults).0 :: HeardAsNoteOff(e.call, channel, pitch)
  {
    var calls := AllListenerCalls(ls, n);
    SilentAllListenerCalls(ls, n, channel, pitch);
    var heard := UntilFault(calls, faults).0;
    forall e | e in heard ensures HeardAsNoteOff(e.call, channel, pitch) {
      var i :| 0 <= i < |heard| && heard[i] == e;
      assert calls[i] == e;
    }
  }

  lemma SilentHostCalls(slots: map<Slot, SlotState>, n: Message, name: string, channel: int, pitch: int, faults: set<Slot>)
    requires WellFormed(n) && slots.Keys == AllSlots && SimpleCall(n) == Some(NoteOff(channel, pitch, 0))
    ensures forall e | e in HostDispatch(slots, HostPlan(n), name, faults).0 :: HeardAsNoteOff(e.call, channel, pitch)
  {
    forall e | e in HostDispatch(slots, HostPlan(n), name, faults).0 ensures HeardAsNoteOff(e.call, channel, pitch) {
      HostInvocations(slots, n, name, faults);
    }
  }

  /**
   * A note-on with velocity 0 reaches no observer as a note-on: after
   * normalisation every listener and host call it gives rise to is a note-off
   * on the same channel with the same pitch, or the raw or whole message.
   */
  lemma SilentNoteOnReachesObserversAsNoteOff(ls: seq<Listener>, slots: map<Slot, SlotState>, m: Message,
                                              name: string, listenerFaults: set<Event>, hostFaults: set<Slot>)
    requires WellFormed(m) && IsSilentNoteOn(m) && slots.Keys == AllSlots
    ensures var n := Normalize(m);
      forall e | e in Deliver(ls, slots, n, name, listenerFaults, hostFaults).0 ::
        !e.call.NoteOn? && (e.call.NoteOff? ==> e.call == NoteOff(Channel(m[0]), m[1], 0))
  {
    var n := Normalize(m);
    assert SimpleCall(n) == Some(NoteOff(Channel(m[0]), m[1], 0));
    SilentListenerCalls(ls, n, Channel(m[0]), m[1], listenerFaults);
    SilentHostCalls(slots, n, name, Channel(m[0]), m[1], hostFaults);
    var r := Deliver(ls, slots, n, name, listenerFaults, hostFaults);
    forall e | e in r.0 ensures HeardAsNoteOff(e.call, Channel(m[0]), m[1]) {
    }
  }
}
